/** The few JavaScript string operations the core relies on, with their ECMAScript
    meaning: `String.prototype.trim`, truthiness of `s && s.trim()`, `split(", ")`, the
    quote-stripping `replace(/^"(.*)"$/, '$1')` and `parseInt` with no radix. */
module JsText {

  /** ECMAScript WhiteSpace and LineTerminator code points: the set `trim` removes. */
  predicate IsWhitespace(c: char) {
    c == '\t' || c == '\n' || c == '\U{000B}' || c == '\U{000C}' || c == '\r' || c == ' ' ||
    c == '\U{00A0}' || c == '\U{1680}' || ('\U{2000}' <= c <= '\U{200A}') ||
    c == '\U{2028}' || c == '\U{2029}' || c == '\U{202F}' || c == '\U{205F}' ||
    c == '\U{3000}' || c == '\U{FEFF}'
  }

  /** ECMAScript LineTerminator: the characters the regular-expression `.` does not match. */
  predicate IsLineTerminator(c: char) {
    c == '\n' || c == '\r' || c == '\U{2028}' || c == '\U{2029}'
  }

  predicate AllWhitespace(s: string) {
    forall i :: 0 <= i < |s| ==> IsWhitespace(s[i])
  }

  /** `trimStart`: drops leading characters while they are whitespace. */
  function TrimStart(s: string): (r: string)
    ensures |r| <= |s| && r == s[|s| - |r|..]
    ensures r == [] || !IsWhitespace(r[0])
  {
    if s != [] && IsWhitespace(s[0]) then TrimStart(s[1..]) else s
  }

  /** `trimEnd`: drops trailing characters while they are whitespace. */
  function TrimEnd(s: string): (r: string)
    ensures |r| <= |s| && r == s[..|r|]
    ensures r == [] || !IsWhitespace(r[|r| - 1])
  {
    if s != [] && IsWhitespace(s[|s| - 1]) then TrimEnd(s[..|s| - 1]) else s
  }

  /** What `trimStart` drops is whitespace. */
  lemma {:induction false} TrimStartDropsWhitespace(s: string)
    ensures AllWhitespace(s[..|s| - |TrimStart(s)|])
    decreases |s|
  {
    if s != [] && IsWhitespace(s[0]) {
      TrimStartDropsWhitespace(s[1..]);
      var k := |s| - |TrimStart(s)|;
      assert forall i :: 1 <= i < k ==> s[..k][i] == s[1..][..k - 1][i - 1];
    }
  }

  /** What `trimEnd` drops is whitespace. */
  lemma {:induction false} TrimEndDropsWhitespace(s: string)
    ensures AllWhitespace(s[|TrimEnd(s)|..])
    decreases |s|
  {
    if s != [] && IsWhitespace(s[|s| - 1]) {
      var s' := s[..|s| - 1];
      TrimEndDropsWhitespace(s');
      var k := |TrimEnd(s)|;
      assert forall i :: 0 <= i < |s| - 1 - k ==> s[k..][i] == s'[k..][i];
    }
  }

  /** `String.prototype.trim`. */
  function Trim(s: string): (r: string)
    ensures |r| <= |s|
    ensures r == [] <==> AllWhitespace(s)
    ensures r == [] || (!IsWhitespace(r[0]) && !IsWhitespace(r[|r| - 1]))
  {
    var t := TrimStart(s);
    var r := TrimEnd(t);
    assert r == [] ==> AllWhitespace(s) by {
      if r == [] {
        TrimStartDropsWhitespace(s);
        TrimEndDropsWhitespace(t);
        assert s == s[..|s| - |t|] + t;
      }
    }
    assert r != [] ==> !AllWhitespace(s) by {
      if r != [] {
        assert s[|s| - |t|] == r[0];
      }
    }
    r
  }

  /** `trim` keeps the characters between what `trimStart` and `trimEnd` drop, in order;
      `TrimStartDropsWhitespace` and `TrimEndDropsWhitespace` say that what they drop is
      whitespace. */
  lemma TrimIsInfix(s: string)
    ensures var k := |s| - |TrimStart(s)|;
      k + |Trim(s)| <= |s| && Trim(s) == s[k..k + |Trim(s)|]
  {
    var t := TrimStart(s);
    var k := |s| - |t|;
    var r := TrimEnd(t);
    assert Trim(s) == r;
    assert t == s[k..];
    assert r == t[..|r|];
  }

  /** The truthiness test `s && s.trim()` used by every guard of the core: some character
      is not whitespace (`HasContentIff` relates it to the JavaScript expression). */
  predicate HasContent(s: string) {
    !AllWhitespace(s)
  }

  /** `s && s.trim()` is truthy exactly when the string is non-empty and trimming leaves
      something, that is, when some character is not whitespace. */
  lemma HasContentIff(s: string)
    ensures HasContent(s) <==> s != "" && Trim(s) != ""
    ensures HasContent(s) <==> exists i :: 0 <= i < |s| && !IsWhitespace(s[i])
  {
  }

  /** Trimming keeps the content test and is idempotent, so text sent after `trim()`
      passes the same guard again. */
  lemma {:induction false} TrimIdempotent(s: string)
    ensures Trim(Trim(s)) == Trim(s)
    ensures HasContent(Trim(s)) <==> HasContent(s)
  {
    var r := Trim(s);
    assert r == [] || !IsWhitespace(r[|r| - 1]);
    assert r == [] || !IsWhitespace(r[0]);
    TrimEndKeeps(r);
    TrimStartKeeps(r);
    assert Trim(r) == TrimEnd(TrimStart(r));
    assert HasContent(r) <==> r != [] by {
      if r != [] {
        assert !IsWhitespace(r[0]);
      }
    }
  }

  lemma TrimStartKeeps(s: string)
    requires s == [] || !IsWhitespace(s[0])
    ensures TrimStart(s) == s
  {
  }

  lemma TrimEndKeeps(s: string)
    requires s == [] || !IsWhitespace(s[|s| - 1])
    ensures TrimEnd(s) == s
  {
  }

  /** Trailing whitespace after a string that already ends in a non-whitespace character
      is exactly what `trimEnd` removes. */
  lemma {:induction false} TrimEndDropsTail(a: string, w: string)
    requires a != [] && !IsWhitespace(a[|a| - 1])
    requires AllWhitespace(w)
    ensures TrimEnd(a + w) == a
    decreases |w|
  {
    if w == [] {
      assert a + w == a;
      TrimEndKeeps(a);
    } else {
      var w' := w[..|w| - 1];
      assert (a + w)[..|a + w| - 1] == a + w';
      TrimEndDropsTail(a, w');
    }
  }

  /** Trimming the end of a concatenation whose right part has content only touches the
      right part. */
  lemma {:induction false} TrimEndOfConcat(a: string, b: string)
    requires !AllWhitespace(b)
    ensures TrimEnd(a + b) == a + TrimEnd(b)
    decreases |b|
  {
    var i :| 0 <= i < |b| && !IsWhitespace(b[i]);
    var ab := a + b;
    assert ab[|ab| - 1] == b[|b| - 1];
    if IsWhitespace(b[|b| - 1]) {
      var b' := b[..|b| - 1];
      assert ab[..|ab| - 1] == a + b';
      assert b'[i] == b[i];
      TrimEndOfConcat(a, b');
      assert TrimEnd(ab) == TrimEnd(a + b');
      assert TrimEnd(b) == TrimEnd(b');
    } else {
      TrimEndKeeps(ab);
      TrimEndKeeps(b);
    }
  }

  // ---------------------------------------------------------------------------------
  // split(", ") and join(", ")

  const Sep: string := ", "

  /** No position of the string starts the separator `", "`. */
  predicate NoSep(s: string) {
    forall i :: 0 <= i < |s| - 1 ==> !(s[i] == ',' && s[i + 1] == ' ')
  }

  /** `s.split(", ")`: the pieces between left-to-right, non-overlapping occurrences
      of the separator. There is always at least one piece, and the first is a prefix
      of the input. */
  function Split(s: string): (parts: seq<string>)
    ensures |parts| >= 1
    ensures parts[0] <= s
    ensures forall k :: 0 <= k < |parts| ==> NoSep(parts[k])
    decreases |s|
  {
    if |s| < 2 then
      assert NoSep(s);
      [s]
    else if s[0] == ',' && s[1] == ' ' then
      [""] + Split(s[2..])
    else
      var rest := Split(s[1..]);
      var first := [s[0]] + rest[0];
      assert NoSep(first) by {
        forall i | 0 <= i < |first| - 1 ensures !(first[i] == ',' && first[i + 1] == ' ') {
          if i == 0 {
            assert first[1] == rest[0][0] == s[1];
          } else {
            assert rest[0][i - 1] == first[i] && rest[0][i] == first[i + 1];
          }
        }
      }
      [first] + rest[1..]
  }

  /** `parts.join(", ")`. */
  function Join(parts: seq<string>): string
    requires |parts| >= 1
  {
    if |parts| == 1 then parts[0] else parts[0] + Sep + Join(parts[1..])
  }

  /** Splitting loses nothing: joining the pieces gives back the input. */
  lemma {:induction false} JoinSplit(s: string)
    ensures Join(Split(s)) == s
    decreases |s|
  {
    var parts := Split(s);
    if |s| < 2 {
    } else if s[0] == ',' && s[1] == ' ' {
      JoinSplit(s[2..]);
      assert parts[1..] == Split(s[2..]);
      assert Join(parts) == "" + Sep + Join(Split(s[2..]));
      assert s == Sep + s[2..];
    } else {
      JoinSplit(s[1..]);
      JoinSplitStep(s, Split(s[1..]));
    }
  }

  lemma JoinSplitStep(s: string, rest: seq<string>)
    requires |s| >= 2 && !(s[0] == ',' && s[1] == ' ')
    requires rest == Split(s[1..]) && Join(rest) == s[1..]
    ensures Join(Split(s)) == s
  {
    var parts := Split(s);
    assert parts == [[s[0]] + rest[0]] + rest[1..];
    assert rest == [rest[0]] + rest[1..];
    JoinCons(s[0], rest[0], rest[1..]);
    assert s == [s[0]] + s[1..];
  }

  /** Putting a character in front of the first piece puts it in front of the joined text. */
  lemma JoinCons(c: char, first: string, tail: seq<string>)
    ensures Join([[c] + first] + tail) == [c] + Join([first] + tail)
  {
    var parts := [[c] + first] + tail;
    if tail != [] {
      assert parts[1..] == tail && ([first] + tail)[1..] == tail;
    }
  }

  /** A string without the separator is a single piece. */
  lemma {:induction false} SplitWithoutSep(s: string)
    requires NoSep(s)
    ensures Split(s) == [s]
    decreases |s|
  {
    if |s| >= 2 {
      assert !(s[0] == ',' && s[1] == ' ');
      assert NoSep(s[1..]) by {
        forall i | 0 <= i < |s| - 2 ensures !(s[1..][i] == ',' && s[1..][i + 1] == ' ') {
          assert s[1..][i] == s[i + 1] && s[1..][i + 1] == s[i + 2];
        }
      }
      SplitWithoutSep(s[1..]);
      assert s == [s[0]] + s[1..];
    }
  }

  /** `a + ", " + b` splits back into `a` and the pieces of `b` when `a` has no separator. */
  lemma {:induction false} SplitAfterFirst(a: string, b: string)
    requires NoSep(a)
    ensures Split(a + Sep + b) == [a] + Split(b)
    decreases |a|
  {
    var s := a + Sep + b;
    if a == [] {
      assert s == Sep + b;
      assert s[2..] == b;
    } else {
      assert s[1] == (if |a| >= 2 then a[1] else ',');
      assert !(s[0] == ',' && s[1] == ' ');
      assert NoSep(a[1..]) by {
        forall i | 0 <= i < |a| - 2 ensures !(a[1..][i] == ',' && a[1..][i + 1] == ' ') {
          assert a[1..][i] == a[i + 1] && a[1..][i + 1] == a[i + 2];
        }
      }
      assert s[1..] == a[1..] + Sep + b;
      SplitAfterFirst(a[1..], b);
      var rest := Split(s[1..]);
      assert rest == [a[1..]] + Split(b);
      assert [s[0]] + rest[0] == a;
      assert rest[1..] == Split(b);
    }
  }

  /** The first piece of `parts[0]`-style parsing: the text up to the first separator. */
  function FirstPiece(s: string): (r: string)
    ensures r <= s && NoSep(r)
    ensures NoSep(s) ==> r == s
  {
    if NoSep(s) then SplitWithoutSep(s); Split(s)[0] else Split(s)[0]
  }

  // ---------------------------------------------------------------------------------
  // replace(/^"(.*)"$/, '$1')

  /** The regular expression `^"(.*)"$` matches: at least two characters, a double quote at
      each end, and no line terminator in between (`.` does not match one). */
  predicate IsQuotedLine(s: string) {
    |s| >= 2 && s[0] == '"' && s[|s| - 1] == '"' &&
    forall i :: 1 <= i < |s| - 1 ==> !IsLineTerminator(s[i])
  }

  /** Removes one pair of surrounding double quotes when the whole string matches. */
  function StripQuotes(s: string): (r: string)
    ensures IsQuotedLine(s) ==> r == s[1..|s| - 1]
    ensures !IsQuotedLine(s) ==> r == s
  {
    if IsQuotedLine(s) then s[1..|s| - 1] else s
  }

  /** Removing characters from both ends cannot create a separator. */
  lemma StripQuotesKeepsNoSep(s: string)
    requires NoSep(s)
    ensures NoSep(StripQuotes(s))
  {
    if IsQuotedLine(s) {
      var r := StripQuotes(s);
      forall i | 0 <= i < |r| - 1 ensures !(r[i] == ',' && r[i + 1] == ' ') {
        assert r[i] == s[i + 1] && r[i + 1] == s[i + 2];
      }
    }
  }

  // ---------------------------------------------------------------------------------
  // parseInt(s) with no radix argument

  /** A JavaScript number produced by `parseInt`: an integer, or NaN. Arithmetic on NaN
      stays NaN. */
  datatype JsInt = Int(n: int) | NaN

  /** The value of `c` as a digit in bases up to 36, or 36 when it is no digit at all:
      the decimal digits are exactly the values below 10, the hexadecimal ones below 16. */
  function DigitValue(c: char): (d: nat)
    ensures d <= 36
    ensures '0' <= c <= '9' ==> d == (c as int) - ('0' as int)
    ensures d < 10 <==> '0' <= c <= '9'
    ensures d < 16 <==> ('0' <= c <= '9' || 'a' <= c <= 'f' || 'A' <= c <= 'F')
  {
    if '0' <= c <= '9' then (c as int) - ('0' as int)
    else if 'a' <= c <= 'z' then (c as int) - ('a' as int) + 10
    else if 'A' <= c <= 'Z' then (c as int) - ('A' as int) + 10
    else 36
  }

  /** The longest prefix of `s` made of digits of the given radix. */
  function DigitPrefix(s: string, radix: nat): (ds: string)
    ensures ds <= s
    ensures forall i :: 0 <= i < |ds| ==> DigitValue(ds[i]) < radix
    ensures |ds| < |s| ==> DigitValue(s[|ds|]) >= radix
  {
    if s != [] && DigitValue(s[0]) < radix then [s[0]] + DigitPrefix(s[1..], radix) else []
  }

  /** The number the digit string denotes, most significant digit first. */
  function DigitsValue(ds: string, radix: nat): nat
  {
    if ds == [] then 0
    else DigitsValue(ds[..|ds| - 1], radix) * radix + (if DigitValue(ds[|ds| - 1]) < radix then DigitValue(ds[|ds| - 1]) else 0)
  }

  /** `parseInt(s)`: skip leading whitespace, read an optional sign, switch to base 16 after
      `0x` or `0X`, then read the longest run of digits; no digits at all give NaN. */
  function ParseInt(s: string): (r: JsInt)
    ensures r == NaN <==> DigitPrefix(ParseIntBody(s), ParseIntRadix(s)) == []
  {
    var t := TrimStart(s);
    var negative := |t| > 0 && t[0] == '-';
    var ds := DigitPrefix(ParseIntBody(s), ParseIntRadix(s));
    if ds == [] then NaN
    else
      var v: int := DigitsValue(ds, ParseIntRadix(s));
      Int(if negative then -v else v)
  }

  /** What `parseInt` reads after whitespace and sign. */
  function Unsigned(s: string): string {
    var t := TrimStart(s);
    if |t| > 0 && (t[0] == '-' || t[0] == '+') then t[1..] else t
  }

  predicate HasHexPrefix(u: string) {
    |u| >= 2 && u[0] == '0' && (u[1] == 'x' || u[1] == 'X')
  }

  function ParseIntRadix(s: string): nat {
    if HasHexPrefix(Unsigned(s)) then 16 else 10
  }

  function ParseIntBody(s: string): string {
    var u := Unsigned(s);
    if HasHexPrefix(u) then u[2..] else u
  }

  /** The decimal text of a natural number, as `String(n)` writes it. */
  function NatString(n: nat): (s: string)
    ensures |s| >= 1
    ensures forall i :: 0 <= i < |s| ==> '0' <= s[i] <= '9'
  {
    if n < 10 then [('0' as int + n) as char]
    else NatString(n / 10) + [('0' as int + n % 10) as char]
  }

  /** The decimal text of an integer, with a leading minus sign when negative. */
  function IntString(n: int): string {
    if n < 0 then "-" + NatString(-n) else NatString(n)
  }

  lemma {:induction false} NatStringValue(n: nat)
    ensures DigitsValue(NatString(n), 10) == n
    decreases n
  {
    var s := NatString(n);
    if n >= 10 {
      NatStringValue(n / 10);
      assert s[..|s| - 1] == NatString(n / 10);
    }
  }

  lemma {:induction false} DigitPrefixOfDigits(s: string)
    requires forall i :: 0 <= i < |s| ==> '0' <= s[i] <= '9'
    ensures DigitPrefix(s, 10) == s
    decreases |s|
  {
    if s != [] {
      DigitPrefixOfDigits(s[1..]);
    }
  }

  /** `parseInt` reads back the decimal text of any integer. */
  lemma ParseIntString(n: int)
    ensures ParseInt(IntString(n)) == Int(n)
  {
    var m: nat := if n < 0 then -n else n;
    var digits := NatString(m);
    TrimStartKeeps(IntString(n));
    assert Unsigned(IntString(n)) == digits by {
      if n < 0 {
        assert IntString(n)[1..] == digits;
      }
    }
    assert !HasHexPrefix(digits);
    DigitPrefixOfDigits(digits);
    NatStringValue(m);
  }
}
