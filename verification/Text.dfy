/** The string operations the settings and the catalogue rely on: strip, split and the
    decimal parsing of int(). Digits are the ASCII ones. */
module Text {
  import opened Common

  /** str.isspace. */
  predicate IsSpace(c: char) {
    var n := c as int;
    9 <= n <= 13 || 28 <= n <= 32 || n == 0x85 || n == 0xA0 || n == 0x1680 || 0x2000 <= n <= 0x200A
    || n == 0x2028 || n == 0x2029 || n == 0x202F || n == 0x205F || n == 0x3000
  }

  predicate Blank(s: string) { forall i | 0 <= i < |s| :: IsSpace(s[i]) }

  function StripLeft(s: string): string {
    if s != "" && IsSpace(s[0]) then StripLeft(s[1..]) else s
  }

  function StripRight(s: string): string {
    if s != "" && IsSpace(s[|s| - 1]) then StripRight(s[..|s| - 1]) else s
  }

  function Strip(s: string): string { StripRight(StripLeft(s)) }

  /** Neither end is white space: what strip returns, and leaves alone. */
  predicate Stripped(s: string) { s == "" || (!IsSpace(s[0]) && !IsSpace(s[|s| - 1])) }

  function Split(s: string, sep: char): (parts: seq<string>)
    ensures parts != []
  {
    if s == "" then [""]
    else
      var rest := Split(s[1..], sep);
      if s[0] == sep then [""] + rest else [[s[0]] + rest[0]] + rest[1..]
  }

  // ----- Strip -----

  lemma {:induction false} StripLeftExact(s: string)
    ensures var t := StripLeft(s);
            && |t| <= |s| && s[|s| - |t|..] == t && Blank(s[..|s| - |t|])
            && (t != "" ==> !IsSpace(t[0]))
  {
    if s != "" && IsSpace(s[0]) {
      StripLeftExact(s[1..]);
      var t := StripLeft(s[1..]);
      assert s[|s| - |t|..] == s[1..][|s[1..]| - |t|..];
      assert s[..|s| - |t|] == [s[0]] + s[1..][..|s[1..]| - |t|];
    }
  }

  lemma {:induction false} StripRightExact(s: string)
    ensures var t := StripRight(s);
            && |t| <= |s| && s[..|t|] == t && Blank(s[|t|..])
            && (t != "" ==> !IsSpace(t[|t| - 1]))
  {
    if s != "" && IsSpace(s[|s| - 1]) {
      StripRightExact(s[..|s| - 1]);
      var t := StripRight(s[..|s| - 1]);
      assert s[|t|..] == s[..|s| - 1][|t|..] + [s[|s| - 1]];
    }
  }

  /** Strip cuts blank ends off and leaves none. */
  lemma StripExact(s: string) returns (left: string, right: string)
    ensures s == left + Strip(s) + right && Blank(left) && Blank(right)
    ensures Stripped(Strip(s))
  {
    StripLeftExact(s);
    var t := StripLeft(s);
    StripRightExact(t);
    left, right := s[..|s| - |t|], t[|Strip(s)|..];
    assert t == Strip(s) + right;
  }

  lemma {:induction false} StripLeftPads(left: string, s: string)
    requires Blank(left) && (s == "" || !IsSpace(s[0]))
    ensures StripLeft(left + s) == s
  {
    if left == "" {
      assert left + s == s;
    } else {
      assert (left + s)[1..] == left[1..] + s;
      StripLeftPads(left[1..], s);
    }
  }

  lemma {:induction false} StripRightPads(s: string, right: string)
    requires Blank(right) && (s == "" || !IsSpace(s[|s| - 1]))
    ensures StripRight(s + right) == s
  {
    if right == "" {
      assert s + right == s;
    } else {
      assert (s + right)[..|s + right| - 1] == s + right[..|right| - 1];
      StripRightPads(s, right[..|right| - 1]);
    }
  }

  lemma {:induction false} StripLeftBlank(s: string)
    requires Blank(s)
    ensures StripLeft(s) == ""
  {
    StripLeftPads(s, "");
    assert s + "" == s;
  }

  /** Padding a stripped text with blanks changes nothing. */
  lemma StripPads(left: string, s: string, right: string)
    requires Blank(left) && Blank(right) && Stripped(s)
    ensures Strip(left + s + right) == s
  {
    if s == "" {
      assert left + s + right == left + right;
      StripLeftBlank(left + right);
    } else {
      assert left + s + right == left + (s + right);
      StripLeftPads(left, s + right);
      StripRightPads(s, right);
    }
  }

  lemma StripIsSame(s: string)
    requires Stripped(s)
    ensures Strip(s) == s
  {
    StripPads("", s, "");
    assert "" + s + "" == s;
  }

  // ----- Split -----

  lemma {:induction false} SplitNone(s: string, sep: char)
    requires sep !in s
    ensures Split(s, sep) == [s]
  {
    if s != "" {
      SplitNone(s[1..], sep);
      assert s == [s[0]] + s[1..];
    }
  }

  /** Splitting undoes joining with the separator. */
  lemma {:induction false} SplitJoined(a: string, b: string, sep: char)
    ensures Split(a + [sep] + b, sep) == Split(a, sep) + Split(b, sep)
  {
    var s := a + [sep] + b;
    if a == "" {
      assert s[1..] == b;
    } else {
      assert s[1..] == a[1..] + [sep] + b;
      SplitJoined(a[1..], b, sep);
    }
  }

  // ----- int() -----

  predicate IsDigit(c: char) { '0' <= c <= '9' }

  function DigitValue(c: char): nat
    requires IsDigit(c)
  {
    c as int - '0' as int
  }

  predicate AllDigits(s: string) { forall i | 0 <= i < |s| :: IsDigit(s[i]) }

  function Value(s: string): nat
    requires AllDigits(s)
  {
    if s == "" then 0 else 10 * Value(s[..|s| - 1]) + DigitValue(s[|s| - 1])
  }

  function WithoutUnderscores(s: string): string {
    if s == "" then ""
    else
      var rest := WithoutUnderscores(s[..|s| - 1]);
      if s[|s| - 1] == '_' then rest else rest + [s[|s| - 1]]
  }

  /** Digits, with single underscores allowed between two of them. */
  predicate IsNumber(s: string) {
    && s != "" && IsDigit(s[0]) && IsDigit(s[|s| - 1])
    && (forall i | 0 <= i < |s| :: IsDigit(s[i]) || s[i] == '_')
    && forall i | 0 < i < |s| :: s[i] == '_' ==> s[i - 1] != '_'
  }

  lemma {:induction false} WithoutUnderscoresDigits(s: string)
    requires forall i | 0 <= i < |s| :: IsDigit(s[i]) || s[i] == '_'
    ensures AllDigits(WithoutUnderscores(s))
  {
    if s != "" {
      WithoutUnderscoresDigits(s[..|s| - 1]);
    }
  }

  /** The leading sign, if there is one. */
  function SignOf(s: string): string { if s != "" && (s[0] == '-' || s[0] == '+') then [s[0]] else "" }

  function ParseDigits(body: string): Option<int> {
    if IsNumber(body) then
      WithoutUnderscoresDigits(body);
      Some(Value(WithoutUnderscores(body)))
    else None
  }

  function ParseSigned(s: string): Option<int> {
    match ParseDigits(s[|SignOf(s)|..])
    case None => None
    case Some(n) => Some(if SignOf(s) == "-" then -n else n)
  }

  /** int(text): None where it raises. */
  function ParseInt(text: string): Option<int> { ParseSigned(Strip(text)) }

  function Digit(n: nat): char
    requires n < 10
  {
    '0' + n as char
  }

  /** str(n). */
  function Print(n: nat): string {
    if n < 10 then [Digit(n)] else Print(n / 10) + [Digit(n % 10)]
  }

  lemma {:induction false} PrintExact(n: nat)
    ensures Print(n) != "" && AllDigits(Print(n)) && Value(Print(n)) == n
  {
    if n < 10 {
      assert Print(n)[..0] == "" && Value("") == 0;
    } else {
      PrintExact(n / 10);
      var s := Print(n);
      assert s[..|s| - 1] == Print(n / 10) && s[|s| - 1] == Digit(n % 10);
    }
  }

  lemma {:induction false} DigitsHaveNoUnderscores(s: string)
    requires AllDigits(s)
    ensures WithoutUnderscores(s) == s
  {
    if s != "" {
      DigitsHaveNoUnderscores(s[..|s| - 1]);
      assert s == s[..|s| - 1] + [s[|s| - 1]];
    }
  }

  /** An underscore counts for nothing. */
  lemma {:induction false} UnderscoreDropped(a: string, b: string)
    ensures WithoutUnderscores(a + "_" + b) == WithoutUnderscores(a) + WithoutUnderscores(b)
  {
    var s := a + "_" + b;
    if b == "" {
      assert s[..|s| - 1] == a;
    } else {
      assert s[..|s| - 1] == a + "_" + b[..|b| - 1];
      UnderscoreDropped(a, b[..|b| - 1]);
    }
  }

  /** A sign or none, and digits between which single underscores may stand. */
  ghost predicate IsSigned(s: string, sign: string, body: string, n: int) {
    && s == sign + body && IsNumber(body) && AllDigits(WithoutUnderscores(body))
    && var size: int := Value(WithoutUnderscores(body));
       (sign == "-" && n == -size) || (sign in {"", "+"} && n == size)
  }

  /** The text cut up: such a number between blank ends. */
  ghost predicate ReadsAs(text: string, n: int, left: string, sign: string, body: string, right: string) {
    text == left + (sign + body) + right && Blank(left) && Blank(right) && IsSigned(sign + body, sign, body, n)
  }

  ghost predicate Reads(text: string, n: int) {
    exists left: string, sign: string, body: string, right: string :: ReadsAs(text, n, left, sign, body, right)
  }

  lemma SignSplit(sign: string, body: string)
    requires sign in {"", "+", "-"} && body != "" && IsDigit(body[0]) && IsDigit(body[|body| - 1])
    ensures SignOf(sign + body) == sign && (sign + body)[|sign|..] == body && Stripped(sign + body)
  {
    var s := sign + body;
    assert s[|s| - 1] == body[|body| - 1];
    assert sign == "" ==> s == body;
  }

  lemma SignedParses(s: string, sign: string, body: string, n: int)
    requires IsSigned(s, sign, body, n)
    ensures Stripped(s) && ParseSigned(s) == Some(n)
  {
    SignSplit(sign, body);
  }

  lemma ParsedIsSigned(s: string) returns (sign: string, body: string)
    requires ParseSigned(s).Some?
    ensures s == sign + body && IsSigned(s, sign, body, ParseSigned(s).value)
  {
    sign, body := SignOf(s), s[|SignOf(s)|..];
    assert s == sign + body;
    WithoutUnderscoresDigits(body);
  }

  /** int() takes exactly the texts that are numbers, for the number they are. */
  lemma ParseIntExact(text: string, n: int)
    ensures ParseInt(text) == Some(n) <==> Reads(text, n)
  {
    if ParseInt(text) == Some(n) {
      var left, right := StripExact(text);
      var sign, body := ParsedIsSigned(Strip(text));
      assert ReadsAs(text, n, left, sign, body, right);
    }
    if left, sign, body, right :| ReadsAs(text, n, left, sign, body, right) {
      SignedParses(sign + body, sign, body, n);
      StripPads(left, sign + body, right);
    }
  }

  /** A digit more is ten times as much and that digit. */
  lemma DigitAppended(s: string, d: nat)
    requires AllDigits(s) && d < 10
    ensures AllDigits(s + ["0123456789"[d]])
    ensures Value(s + ["0123456789"[d]]) == 10 * Value(s) + d
  {
    assert "0123456789"[d] == '0' + d as char;
    assert (s + ["0123456789"[d]])[..|s|] == s;
  }

  /** Parsing undoes printing. */
  lemma ParsePrinted(n: nat)
    ensures ParseInt(Print(n)) == Some(n)
  {
    var s := Print(n);
    PrintExact(n);
    DigitsHaveNoUnderscores(s);
    DigitsAreANumber(s);
    SignedParses(s, "", s, n);
    StripIsSame(s);
  }

  lemma DigitsAreANumber(s: string)
    requires s != "" && AllDigits(s)
    ensures IsNumber(s) && s == "" + s
  {
  }
}
