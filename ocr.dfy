/** src/main/utils/ocr.ts: capture a 300 by 200 pixel area around the mouse pointer into a
    temporary PNG file, then ask the local Ollama vision model for the text in it. The two
    subprocesses (`osascript`, `screencapture`), the file read and `curl` are oracles: each
    operation receives what the operating system answered. */
module Ocr {
  import opened Wrappers
  import opened JsText
  import opened ChildProcess

  /** Why a step rejected. */
  datatype OcrError =
    | MouseQueryFailed      // the osascript call exited with an error
    | PositionUnparsable    // its output did not split into exactly two pieces
    | CaptureFailed         // screencapture exited with an error
    | ReadFailed            // readFileSync threw
    | RequestFailed         // curl exited with an error
    | ResponseUnparsable    // JSON.parse threw on curl's output
    | NoText                // the reply parsed, but carried no (truthy) `response` field

  // ---------------------------------------------------------------------------------
  // The mouse position and the capture rectangle

  /** The two pieces of the `"x, y"` that `current location` prints: the trimmed output
      split on `", "`, when that gives exactly two. */
  function PositionPieces(stdout: string): (r: Option<(string, string)>)
    ensures r.Some? ==> NoSep(r.value.0) && NoSep(r.value.1)
    ensures r.Some? ==> Join([r.value.0, r.value.1]) == Trim(stdout)
  {
    var parts := Split(Trim(stdout));
    if |parts| != 2 then None
    else
      JoinSplit(Trim(stdout));
      assert parts[1..] == [parts[1]];
      Some((parts[0], parts[1]))
  }

  /** Reads the mouse position: each of the two pieces through `parseInt` (which may give
      NaN); any other number of pieces rejects. */
  function ParseMousePosition(stdout: string): (r: Result<(JsInt, JsInt), OcrError>)
    ensures r.Failure? <==> PositionPieces(stdout).None?
    ensures r.Failure? ==> r.error == PositionUnparsable
  {
    match PositionPieces(stdout)
    case None => Failure(PositionUnparsable)
    case Some(p) => Success((ParseInt(p.0), ParseInt(p.1)))
  }

  lemma IntStringChars(n: int)
    ensures |IntString(n)| >= 1
    ensures IntString(n)[0] == '-' || '0' <= IntString(n)[0] <= '9'
    ensures '0' <= IntString(n)[|IntString(n)| - 1] <= '9'
    ensures NoSep(IntString(n))
  {
    var s := IntString(n);
    if n < 0 {
      var d := NatString(-n);
      assert s == "-" + d;
      assert s[|s| - 1] == d[|d| - 1];
      forall i | 0 <= i < |s| - 1 ensures !(s[i] == ',' && s[i + 1] == ' ') {
        assert s[i + 1] == d[i];
      }
    }
  }

  /** Whatever integers the AppleScript prints as `"x, y"` (with its trailing newline) are
      read back exactly. */
  lemma ParsePrintedPosition(x: int, y: int)
    ensures ParseMousePosition(IntString(x) + Sep + IntString(y) + "\n") == Success((Int(x), Int(y)))
  {
    IntStringChars(x);
    IntStringChars(y);
    PiecesOfPrinted(IntString(x), IntString(y));
    ParseIntString(x);
    ParseIntString(y);
  }

  /** Two separator-free pieces that start and end with visible characters, printed as
      `"a, b"` with a newline, come back as the two pieces. */
  lemma PiecesOfPrinted(a: string, b: string)
    requires a != [] && !IsWhitespace(a[0]) && NoSep(a)
    requires b != [] && !IsWhitespace(b[|b| - 1]) && NoSep(b)
    ensures PositionPieces(a + Sep + b + "\n") == Some((a, b))
  {
    var line := a + Sep + b;
    assert line[0] == a[0] && line[|line| - 1] == b[|b| - 1];
    TrimDropsNewline(line);
    SplitAfterFirst(a, b);
    SplitWithoutSep(b);
  }

  /** The newline `osascript` appends is all that trimming removes from the printed line. */
  lemma TrimDropsNewline(line: string)
    requires line != [] && !IsWhitespace(line[0]) && !IsWhitespace(line[|line| - 1])
    ensures Trim(line + "\n") == line
  {
    var stdout := line + "\n";
    assert stdout[0] == line[0];
    TrimStartKeeps(stdout);
    assert AllWhitespace("\n");
    TrimEndDropsTail(line, "\n");
  }

  /** Output without the separator, or with more than one, is rejected. */
  lemma PositionNeedsOneSeparator(stdout: string)
    requires NoSep(Trim(stdout))
    ensures ParseMousePosition(stdout) == Failure(PositionUnparsable)
  {
    SplitWithoutSep(Trim(stdout));
  }

  /** Three or more pieces are rejected too. */
  lemma PositionRejectsThreePieces(a: string, b: string, c: string)
    requires a != [] && !IsWhitespace(a[0]) && NoSep(a) && NoSep(b)
    requires c != [] && !IsWhitespace(c[|c| - 1])
    ensures PositionPieces(a + Sep + b + Sep + c) == None
  {
    var s := a + Sep + b + Sep + c;
    assert s[0] == a[0] && s[|s| - 1] == c[|c| - 1];
    TrimStartKeeps(s);
    TrimEndKeeps(s);
    assert s == a + Sep + (b + Sep + c);
    SplitAfterFirst(a, b + Sep + c);
    SplitAfterFirst(b, c);
  }

  const CaptureWidth: int := 300
  const CaptureHeight: int := 200

  /** `Math.max(0, v - d)` on a `parseInt` result: NaN stays NaN. */
  function ShiftFloorZero(v: JsInt, d: nat): (r: JsInt)
    ensures v == NaN <==> r == NaN
    ensures v.Int? ==> r.n >= 0 && (r.n == v.n - d || (r.n == 0 && v.n - d < 0))
  {
    match v
    case NaN => NaN
    case Int(n) => Int(if n - d > 0 then n - d else 0)
  }

  /** The `-R"left,top,width,height"` rectangle handed to screencapture. */
  datatype Region = Region(left: JsInt, top: JsInt, width: int, height: int)

  /** The rectangle around (x, y): centred on the pointer, then pushed right or down to
      stay at non-negative coordinates; nothing bounds it on the right or at the bottom. */
  function RegionAround(x: JsInt, y: JsInt): (r: Region)
    ensures r.width == CaptureWidth && r.height == CaptureHeight
    ensures x.Int? && x.n >= CaptureWidth / 2 ==> r.left == Int(x.n - CaptureWidth / 2)
    ensures y.Int? && y.n >= CaptureHeight / 2 ==> r.top == Int(y.n - CaptureHeight / 2)
    ensures x.Int? && x.n < CaptureWidth / 2 ==> r.left == Int(0)
    ensures y.Int? && y.n < CaptureHeight / 2 ==> r.top == Int(0)
    ensures x == NaN <==> r.left == NaN
    ensures y == NaN <==> r.top == NaN
  {
    Region(ShiftFloorZero(x, CaptureWidth / 2), ShiftFloorZero(y, CaptureHeight / 2),
           CaptureWidth, CaptureHeight)
  }

  /** Whenever the pointer is at non-negative coordinates it lies inside the rectangle. */
  lemma PointerInsideRegion(x: int, y: int)
    requires x >= 0 && y >= 0
    ensures var r := RegionAround(Int(x), Int(y));
      r.left.Int? && r.top.Int? &&
      r.left.n <= x < r.left.n + r.width && r.top.n <= y < r.top.n + r.height
  {
  }

  // ---------------------------------------------------------------------------------
  // Temporary files

  /** The part of the file system the OCR steps touch: which paths exist. */
  class FileSystem {
    var files: set<string>

    constructor(files: set<string>)
      ensures this.files == files
    {
      this.files := files;
    }
  }

  /** What the screen-capture step does, as a value: the mouse query fails, its output is
      unparsable, or it yields the rectangle that screencapture is asked for; `Success`
      carries that rectangle when screencapture also succeeds. */
  function CaptureStep(mouse: ExecOutcome, captureOk: bool): (r: Result<Region, OcrError>)
    ensures r.Failure? <==>
      mouse.ExecFailed? || ParseMousePosition(mouse.stdout).Failure? || !captureOk
  {
    match mouse
    case ExecFailed => Failure(MouseQueryFailed)
    case ExecOutput(out) =>
      match ParseMousePosition(out)
      case Failure(e) => Failure(e)
      case Success(p) => if captureOk then Success(RegionAround(p.0, p.1)) else Failure(CaptureFailed)
  }

  /** `captureScreenAtMouse`: on success the image exists at `tempPath` and the promise
      resolves with that path. `requested` is the rectangle given to screencapture, when it
      was run at all. */
  method CaptureScreenAtMouse(fs: FileSystem, tempPath: string, mouse: ExecOutcome, captureOk: bool)
    returns (r: Result<string, OcrError>, requested: Option<Region>)
    modifies fs
    ensures r.Success? <==> CaptureStep(mouse, captureOk).Success?
    ensures r.Success? ==> r.value == tempPath
    ensures r.Failure? ==> r.error == CaptureStep(mouse, captureOk).error
    ensures requested.Some? <==>
      mouse.ExecOutput? && ParseMousePosition(mouse.stdout).Success?
    ensures r.Success? ==> requested == Some(CaptureStep(mouse, captureOk).value)
    ensures fs.files == if r.Success? then old(fs.files) + {tempPath} else old(fs.files)
  {
    requested := None;
    if mouse.ExecFailed? {
      return Failure(MouseQueryFailed), requested;
    }
    var parts := Split(Trim(mouse.stdout));
    if |parts| != 2 {
      return Failure(PositionUnparsable), requested;
    }
    var x := ParseInt(parts[0]);
    var y := ParseInt(parts[1]);
    var region := RegionAround(x, y);
    requested := Some(region);
    if !captureOk {
      return Failure(CaptureFailed), requested;
    }
    fs.files := fs.files + {tempPath};
    r := Success(tempPath);
  }

  // ---------------------------------------------------------------------------------
  // Escaping the request body for the shell

  /** What one character of the request body becomes: a single quote turns into quote,
      backslash, quote, quote (close the quoted part, an escaped quote, reopen). */
  function EscapeChar(c: char): (r: string)
    ensures c != '\'' ==> r == [c]
  {
    if c == '\'' then "'\\''" else [c]
  }

  /** `requestBody.replace(/'/g, "'\\''")`, character by character. */
  function EscapeSingleQuotes(s: string): (r: string)
    ensures |r| >= |s|
  {
    if s == [] then [] else EscapeChar(s[0]) + EscapeSingleQuotes(s[1..])
  }

  /** A body without single quotes is sent as it is. */
  lemma {:induction false} EscapeWithoutQuotes(s: string)
    requires forall i :: 0 <= i < |s| ==> s[i] != '\''
    ensures EscapeSingleQuotes(s) == s
    decreases |s|
  {
    if s != [] {
      assert forall i :: 0 <= i < |s| - 1 ==> s[1..][i] == s[i + 1];
      EscapeWithoutQuotes(s[1..]);
      assert s == [s[0]] + s[1..];
    }
  }

  /** The body inside the `-d '...'` word of the curl command line. */
  function SingleQuoted(s: string): string {
    "'" + EscapeSingleQuotes(s) + "'"
  }

  const OllamaEndpoint: string := "http://localhost:11434/api/generate"

  function CurlCommand(requestBody: string): string {
    "curl -s -X POST " + OllamaEndpoint + " -d " + SingleQuoted(requestBody)
  }

  /** Characters that, unquoted, the shell does not take literally (section 2.2 of the
      POSIX Shell Command Language): operators, blanks, quoting, the starts of parameter
      and command expansion, and the pattern characters of pathname expansion. `~` and `#`
      are special only at the start of a word; `UnquoteWord` refuses them anywhere
      unquoted, so it accepts no word that the shell would read differently. */
  predicate IsShellSpecial(c: char) {
    c == '|' || c == '&' || c == ';' || c == '<' || c == '>' || c == '(' || c == ')' ||
    c == '$' || c == '`' || c == '\\' || c == '"' || c == '\'' || c == ' ' || c == '\t' ||
    c == '\n' || c == '*' || c == '?' || c == '[' || c == '~' || c == '#'
  }

  function Prepend(c: char, w: Option<string>): Option<string> {
    match w
    case None => None
    case Some(t) => Some([c] + t)
  }

  function PrependAll(s: string, w: Option<string>): Option<string> {
    match w
    case None => None
    case Some(t) => Some(s + t)
  }

  /** Quote removal for one shell word outside quotes: `'` opens a single-quoted part,
      a backslash quotes the next character (a backslash-newline pair vanishes), other
      special characters mean the text is not a single literal word (`None`). */
  function UnquoteWord(w: string): Option<string>
    decreases |w|
  {
    if w == [] then Some("")
    else if w[0] == '\'' then UnquoteSingle(w[1..])
    else if w[0] == '\\' then
      if |w| == 1 then None
      else if w[1] == '\n' then UnquoteWord(w[2..])
      else Prepend(w[1], UnquoteWord(w[2..]))
    else if IsShellSpecial(w[0]) then None
    else Prepend(w[0], UnquoteWord(w[1..]))
  }

  /** Quote removal inside single quotes: every character stands for itself up to the
      closing quote (section 2.2.2); an unterminated quote is an error. */
  function UnquoteSingle(w: string): Option<string>
    decreases |w|
  {
    if w == [] then None
    else if w[0] == '\'' then UnquoteWord(w[1..])
    else Prepend(w[0], UnquoteSingle(w[1..]))
  }

  /** An escaped quote inside a single-quoted part: close, backslash-quote, reopen. */
  lemma UnquoteEscapedQuote(x: string)
    ensures UnquoteSingle("'\\''" + x) == Prepend('\'', UnquoteSingle(x))
  {
    var w := "'\\''" + x;
    assert w[1..] == "\\''" + x;
    var v := w[1..];
    assert v[0] == '\\' && v[1] == '\'';
    assert v[2..] == "'" + x;
    assert ("'" + x)[1..] == x;
    assert UnquoteSingle(w) == UnquoteWord(v);
    assert UnquoteWord(v) == Prepend('\'', UnquoteWord(v[2..]));
    assert UnquoteWord("'" + x) == UnquoteSingle(x);
  }

  lemma UnquoteOrdinary(c: char, x: string)
    requires c != '\''
    ensures UnquoteSingle([c] + x) == Prepend(c, UnquoteSingle(x))
  {
    assert ([c] + x)[1..] == x;
  }

  lemma PrependOfPrependAll(c: char, t: string, o: Option<string>)
    ensures Prepend(c, PrependAll(t, o)) == PrependAll([c] + t, o)
  {
    match o {
      case None =>
      case Some(u) => assert [c] + (t + u) == ([c] + t) + u;
    }
  }

  /** One escaped character in front of an already readable rest reads back as that
      character in front of what the rest reads back as. */
  lemma UnquoteEscapedCons(c: char, t: string, e: string, rest: string)
    requires UnquoteSingle(e + "'" + rest) == PrependAll(t, UnquoteWord(rest))
    ensures UnquoteSingle(EscapeChar(c) + e + "'" + rest) == PrependAll([c] + t, UnquoteWord(rest))
  {
    var x := e + "'" + rest;
    assert EscapeChar(c) + e + "'" + rest == EscapeChar(c) + x;
    if c == '\'' {
      UnquoteEscapedQuote(x);
    } else {
      UnquoteOrdinary(c, x);
    }
    PrependOfPrependAll(c, t, UnquoteWord(rest));
  }

  /** Reading an escaped body inside single quotes gives the body back, then goes on with
      whatever follows the closing quote. */
  lemma {:induction false} UnquoteEscaped(s: string, rest: string)
    ensures UnquoteSingle(EscapeSingleQuotes(s) + "'" + rest) == PrependAll(s, UnquoteWord(rest))
    decreases |s|
  {
    if s == [] {
      assert EscapeSingleQuotes(s) + "'" + rest == "'" + rest;
      assert ("'" + rest)[1..] == rest;
      match UnquoteWord(rest) {
        case None =>
        case Some(t) => assert s + t == t;
      }
    } else {
      UnquoteEscaped(s[1..], rest);
      UnquoteEscapedCons(s[0], s[1..], EscapeSingleQuotes(s[1..]), rest);
      assert [s[0]] + s[1..] == s;
    }
  }

  /** The shell reads the quoted word back as exactly the request body, whatever single
      quotes or special characters the body contains. */
  lemma SingleQuotedRoundTrip(s: string)
    ensures UnquoteWord(SingleQuoted(s)) == Some(s)
  {
    var w := SingleQuoted(s);
    assert w[1..] == EscapeSingleQuotes(s) + "'" + "";
    UnquoteEscaped(s, "");
    assert s + "" == s;
  }

  // ---------------------------------------------------------------------------------
  // Asking the model for the text

  /** What came out of `JSON.parse(stdout)`: it threw, or it gave a value whose
      `response` field is a string (`Some`) or is absent, null, or the value is null
      (`None`). */
  datatype Reply = NotJson | Parsed(response: Option<string>)

  datatype CurlOutcome = CurlFailed | CurlReturned(reply: Reply)

  /** What `extractTextWithLlama` settles with, given whether the image could be read and
      what curl returned: the `response` string when it is truthy, an error otherwise. */
  function ExtractOutcome(readable: bool, curl: CurlOutcome): (r: Result<string, OcrError>)
    ensures r.Success? ==> r.value != "" && curl == CurlReturned(Parsed(Some(r.value)))
    ensures r.Success? <==> (readable && curl.CurlReturned? && curl.reply.Parsed? &&
      curl.reply.response.Some? && curl.reply.response.value != "")
  {
    if !readable then Failure(ReadFailed)
    else match curl
      case CurlFailed => Failure(RequestFailed)
      case CurlReturned(NotJson) => Failure(ResponseUnparsable)
      case CurlReturned(Parsed(None)) => Failure(NoText)
      case CurlReturned(Parsed(Some(t))) => if t != "" then Success(t) else Failure(NoText)
  }

  /** The image is deleted exactly when curl came back, whatever its output parsed to, and
      `unlinkSync` did not throw. */
  predicate ImageRemoved(readable: bool, curl: CurlOutcome, unlinkOk: bool) {
    readable && curl.CurlReturned? && unlinkOk
  }

  /** `extractTextWithLlama`. The file read succeeds when the image exists and the
      read does not fail for another reason (`readOk`); `requestBody` stands for
      `JSON.stringify` of the request with the base64 image. `command` is the command
      line given to the shell, when one was. An unlink failure is only logged. */
  method ExtractTextWithLlama(fs: FileSystem, imagePath: string, readOk: bool, requestBody: string,
                              curl: CurlOutcome, unlinkOk: bool)
    returns (r: Result<string, OcrError>, command: Option<string>)
    modifies fs
    ensures r == ExtractOutcome(imagePath in old(fs.files) && readOk, curl)
    ensures command == if imagePath in old(fs.files) && readOk then Some(CurlCommand(requestBody)) else None
    ensures fs.files == if ImageRemoved(imagePath in old(fs.files) && readOk, curl, unlinkOk)
      then old(fs.files) - {imagePath} else old(fs.files)
  {
    command := None;
    if !(imagePath in fs.files && readOk) {
      return Failure(ReadFailed), command;
    }
    command := Some(CurlCommand(requestBody));
    if curl.CurlFailed? {
      return Failure(RequestFailed), command;
    }
    match curl.reply {
      case NotJson =>
        r := Failure(ResponseUnparsable);
      case Parsed(response) =>
        if response.Some? && response.value != "" {
          r := Success(response.value);
        } else {
          r := Failure(NoText);
        }
    }
    if unlinkOk {
      fs.files := fs.files - {imagePath};
    }
  }

  // ---------------------------------------------------------------------------------
  // Both steps, as `handleOCR` chains them

  /** Everything the operating system and the model answer during one OCR request. */
  datatype OcrWorld = OcrWorld(mouse: ExecOutcome, captureOk: bool, readOk: bool,
                               requestBody: string, curl: CurlOutcome, unlinkOk: bool)

  /** The outcome of capture followed by extraction. */
  function OcrOutcome(w: OcrWorld): Result<string, OcrError> {
    match CaptureStep(w.mouse, w.captureOk)
    case Failure(e) => Failure(e)
    case Success(_) => ExtractOutcome(w.readOk, w.curl)
  }

  /** The files after both steps, starting from `files` with the image to go at `tempPath`. */
  function FilesAfterOcr(files: set<string>, tempPath: string, w: OcrWorld): set<string> {
    if CaptureStep(w.mouse, w.captureOk).Failure? then files
    else if ImageRemoved(w.readOk, w.curl, w.unlinkOk) then files - {tempPath}
    else files + {tempPath}
  }

  /** With a fresh temporary path, the image is left behind exactly when it was captured
      and then not removed: the read failed, curl failed, or the unlink failed. */
  lemma TempImageLeftIff(files: set<string>, tempPath: string, w: OcrWorld)
    requires tempPath !in files
    ensures tempPath in FilesAfterOcr(files, tempPath, w) <==>
      CaptureStep(w.mouse, w.captureOk).Success? &&
      (!w.readOk || w.curl.CurlFailed? || !w.unlinkOk)
  {
  }

  /** No file other than the image is created or deleted. */
  lemma OcrTouchesOnlyImage(files: set<string>, tempPath: string, w: OcrWorld)
    requires tempPath !in files
    ensures FilesAfterOcr(files, tempPath, w) - {tempPath} == files
  {
  }

  /** The image is cleaned up even when the reply carries no text. */
  lemma RemovedEvenWithoutText(files: set<string>, tempPath: string, w: OcrWorld)
    requires CaptureStep(w.mouse, w.captureOk).Success? && w.readOk && w.unlinkOk
    requires w.curl == CurlReturned(NotJson) || w.curl == CurlReturned(Parsed(None))
    ensures OcrOutcome(w).Failure?
    ensures tempPath !in FilesAfterOcr(files, tempPath, w)
  {
  }

  /** OCR succeeds only with a non-empty text taken from a reply curl delivered, and only
      after the mouse query and the capture succeeded. */
  lemma OcrSuccessNeeds(w: OcrWorld)
    requires OcrOutcome(w).Success?
    ensures w.mouse.ExecOutput? && w.captureOk && w.readOk
    ensures w.curl == CurlReturned(Parsed(Some(OcrOutcome(w).value)))
    ensures OcrOutcome(w).value != ""
  {
  }
}
