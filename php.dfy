/**
 * The slice of PHP's value semantics that the content store leans on: the scalar values a database
 * column or a request field can hold, `empty()` truthiness, `intval`/`strval`, the loose `==` that
 * `in_array` uses, `array_filter`, `trim`, `mb_substr`, and the two string filters `e()`
 * (`htmlspecialchars` with quotes) and `nl2br` that build generated description HTML.
 */
module Php {
  import opened Seqs

  /** A PHP scalar as held by an attribute, a column or a request field. */
  datatype Value = Null | Int(i: int) | Str(s: string) | Bool(b: bool)

  /** `empty($v)`: null, 0, "", "0" and false. */
  predicate Falsy(v: Value) {
    match v
    case Null => true
    case Int(i) => i == 0
    case Str(s) => s == "" || s == "0"
    case Bool(b) => !b
  }

  predicate Truthy(v: Value) {
    !Falsy(v)
  }

  // ---------------------------------------------------------------------------------------------
  // Integers written in decimal

  predicate IsDigit(c: char) {
    '0' <= c <= '9'
  }

  function DigitChar(d: nat): (c: char)
    requires d < 10
    ensures IsDigit(c)
  {
    ['0', '1', '2', '3', '4', '5', '6', '7', '8', '9'][d]
  }

  function DigitValue(c: char): (d: nat)
    requires IsDigit(c)
    ensures d < 10
    ensures DigitChar(d) == c
  {
    (c as int - '0' as int)
  }

  /** The value of a run of decimal digits, most significant first. */
  function DigitsValue(s: string): nat
    requires forall i | 0 <= i < |s| :: IsDigit(s[i])
  {
    if s == [] then 0 else DigitsValue(s[..|s| - 1]) * 10 + DigitValue(s[|s| - 1])
  }

  /** The decimal digits of `n` without leading zeros ("0" for zero). */
  function NatDigits(n: nat): (r: string)
    ensures r != []
    ensures forall i | 0 <= i < |r| :: IsDigit(r[i])
  {
    if n < 10 then [DigitChar(n)] else NatDigits(n / 10) + [DigitChar(n % 10)]
  }

  lemma {:induction false} DigitsValueNatDigits(n: nat)
    ensures DigitsValue(NatDigits(n)) == n
  {
    if n >= 10 {
      DigitsValueNatDigits(n / 10);
      var r := NatDigits(n);
      assert r[..|r| - 1] == NatDigits(n / 10);
    }
  }

  /** `strval($n)` for an integer. */
  function StrVal(n: int): (r: string)
    ensures r != [] && r != "0" ==> n != 0
    ensures n != 0 ==> r != "0"
  {
    if n < 0 then "-" + NatDigits(-n) else NatDigits(n)
  }

  // ---------------------------------------------------------------------------------------------
  // Reading integers out of strings

  /** The whitespace PHP skips in front of a numeric string. */
  predicate IsNumericSpace(c: char) {
    c == ' ' || c == '\t' || c == '\n' || c == '\r' || c == '\U{B}' || c == '\U{C}'
  }

  function SkipSpace(s: string): (r: string)
    ensures |r| <= |s| && r == s[|s| - |r|..]
    ensures r != [] ==> !IsNumericSpace(r[0])
    ensures forall i | 0 <= i < |s| - |r| :: IsNumericSpace(s[i])
  {
    if s != [] && IsNumericSpace(s[0]) then SkipSpace(s[1..]) else s
  }

  /** The longest prefix of `s` made of decimal digits. */
  function LeadingDigits(s: string): (r: string)
    ensures |r| <= |s| && r == s[..|r|]
    ensures forall i | 0 <= i < |r| :: IsDigit(r[i])
    ensures |r| < |s| ==> !IsDigit(s[|r|])
  {
    if s != [] && IsDigit(s[0]) then [s[0]] + LeadingDigits(s[1..]) else []
  }

  /** A sign, if present, and the digits after it. */
  function SplitSign(t: string): (bool, string) {
    if t != [] && (t[0] == '-' || t[0] == '+') then (t[0] == '-', t[1..]) else (false, t)
  }

  /**
   * `intval` of a string in PHP 8: leading whitespace, an optional sign, then the longest run of
   * digits; a string that does not start that way reads as 0.
   */
  function IntPrefix(s: string): int {
    var (negative, rest) := SplitSign(SkipSpace(s));
    var magnitude: int := DigitsValue(LeadingDigits(rest));
    if negative then -magnitude else magnitude
  }

  /** `intval($v)`. */
  function IntVal(v: Value): int {
    match v
    case Null => 0
    case Int(i) => i
    case Str(s) => IntPrefix(s)
    case Bool(b) => if b then 1 else 0
  }

  lemma LeadingDigitsAll(s: string)
    requires forall i | 0 <= i < |s| :: IsDigit(s[i])
    ensures LeadingDigits(s) == s
  {
  }

  /** A bare run of digits, or one behind a minus sign, reads back as its value. */
  lemma IntPrefixDigits(d: string)
    requires d != [] && forall i | 0 <= i < |d| :: IsDigit(d[i])
    ensures IntPrefix(d) == DigitsValue(d)
    ensures IntPrefix("-" + d) == -(DigitsValue(d) as int)
  {
    LeadingDigitsAll(d);
    assert !IsNumericSpace(d[0]);
    assert A: SkipSpace(d) == d;
    assert B: SplitSign(d) == (false, d);
    var m := "-" + d;
    assert m[0] == '-';
    assert C: SkipSpace(m) == m;
    assert m[1..] == d;
    assert D: SplitSign(m) == (true, d);
  }

  /** `intval(strval($n)) === $n`. */
  lemma IntValStrVal(n: int)
    ensures IntVal(Str(StrVal(n))) == n
  {
    var m: nat := if n < 0 then -n else n;
    IntPrefixDigits(NatDigits(m));
    DigitsValueNatDigits(m);
  }

  /**
   * A PHP 8 integer-numeric string: optional surrounding whitespace around an optionally signed,
   * non-empty run of digits.
   */
  predicate IsIntegerString(s: string) {
    var (_, rest) := SplitSign(SkipSpace(s));
    var digits := LeadingDigits(rest);
    digits != [] && forall i | |digits| <= i < |rest| :: IsNumericSpace(rest[i])
  }

  /**
   * `$v == strval($n)`, PHP 8 loose comparison as `in_array` performs it: a number against a numeric
   * string compares numerically, a boolean against the string's truthiness, and `null` against the
   * empty string. Decimal and exponent forms ("5.0", "5e0") are not modelled.
   */
  predicate LooselyEqualsIntString(v: Value, n: int) {
    match v
    case Null => false
    case Int(i) => i == n
    case Bool(b) => b == (n != 0)
    case Str(s) => IsIntegerString(s) && IntPrefix(s) == n
  }

  lemma IsIntegerStringDigits(d: string)
    requires d != [] && forall i | 0 <= i < |d| :: IsDigit(d[i])
    ensures IsIntegerString(d) && IsIntegerString("-" + d)
  {
    LeadingDigitsAll(d);
    assert !IsNumericSpace(d[0]);
    assert SkipSpace(d) == d;
    assert SplitSign(d) == (false, d);
    var m := "-" + d;
    assert m[0] == '-';
    assert SkipSpace(m) == m;
    assert m[1..] == d;
    assert SplitSign(m) == (true, d);
  }

  /** The string and the integer forms of `$n` both match `strval($n)`. */
  lemma LooselyEqualsOwnForms(n: int)
    ensures LooselyEqualsIntString(Int(n), n)
    ensures LooselyEqualsIntString(Str(StrVal(n)), n)
  {
    IntValStrVal(n);
    var m: nat := if n < 0 then -n else n;
    IsIntegerStringDigits(NatDigits(m));
  }

  /** For numbers and strings, a loose match means `intval` gives back the same integer. */
  lemma LooselyEqualsIntVal(v: Value, n: int)
    requires !v.Bool?
    requires LooselyEqualsIntString(v, n)
    ensures IntVal(v) == n
  {
  }

  /** `in_array(strval($n), $list)` with loose comparison. */
  predicate InArrayLoose(n: int, list: seq<Value>) {
    exists i | 0 <= i < |list| :: LooselyEqualsIntString(list[i], n)
  }

  /** `array_filter($list)`: drops every falsy element, keeping order. */
  function ArrayFilter(list: seq<Value>): (r: seq<Value>)
    ensures forall v :: v in r <==> v in list && Truthy(v)
    ensures |r| <= |list|
  {
    Filter(list, Truthy)
  }

  // ---------------------------------------------------------------------------------------------
  // Strings

  /** The characters `trim` removes by default: space, tab, newline, carriage return, NUL, vertical tab. */
  const DefaultTrimChars: set<char> := {' ', '\t', '\n', '\r', '\0', '\U{B}'}

  function TrimLeft(s: string, chars: set<char>): (r: string)
    ensures |r| <= |s| && r == s[|s| - |r|..]
    ensures r != [] ==> r[0] !in chars
    ensures forall i | 0 <= i < |s| - |r| :: s[i] in chars
  {
    if s != [] && s[0] in chars then TrimLeft(s[1..], chars) else s
  }

  function TrimRight(s: string, chars: set<char>): (r: string)
    ensures |r| <= |s| && r == s[..|r|]
    ensures r != [] ==> r[|r| - 1] !in chars
    ensures forall i | |r| <= i < |s| :: s[i] in chars
  {
    if s != [] && s[|s| - 1] in chars then TrimRight(s[..|s| - 1], chars) else s
  }

  /** `trim($s, $chars)`: the longest slice with none of `chars` at either end. */
  function Trim(s: string, chars: set<char> := DefaultTrimChars): (r: string)
    ensures exists i, j | 0 <= i <= j <= |s| :: r == s[i..j]
    ensures r != [] ==> r[0] !in chars && r[|r| - 1] !in chars
    ensures (forall i | 0 <= i < |s| :: s[i] !in chars) ==> r == s
  {
    var left := TrimLeft(s, chars);
    var r := TrimRight(left, chars);
    assert r == s[|s| - |left|..|s| - |left| + |r|];
    r
  }

  /** Trimming twice is trimming once. */
  lemma TrimIdempotent(s: string, chars: set<char>)
    ensures Trim(Trim(s, chars), chars) == Trim(s, chars)
  {
    var r := Trim(s, chars);
    if r != [] {
      assert TrimLeft(r, chars) == r;
      assert TrimRight(r, chars) == r;
    }
  }

  /** A leading or trailing trimmed character makes no difference to the trimmed result. */
  lemma TrimDropsSurrounding(s: string, chars: set<char>, c: char)
    requires c in chars
    ensures Trim([c] + s, chars) == Trim(s, chars)
    ensures Trim(s + [c], chars) == Trim(s, chars)
  {
    assert ([c] + s)[1..] == s;
    TrimLeftSnoc(s, chars, c);
  }

  lemma {:induction false} TrimLeftSnoc(s: string, chars: set<char>, c: char)
    requires c in chars
    ensures TrimRight(TrimLeft(s + [c], chars), chars) == TrimRight(TrimLeft(s, chars), chars)
  {
    if s == [] {
      assert s + [c] == [c] && [c][1..] == [];
    } else if s[0] in chars {
      assert (s + [c])[0] == s[0] && (s + [c])[1..] == s[1..] + [c];
      TrimLeftSnoc(s[1..], chars, c);
    } else {
      assert (s + [c])[0] == s[0];
      assert (s + [c])[..|s + [c]| - 1] == s;
    }
  }

  /** `implode($sep, $parts)`: the parts joined, `sep` between each neighbouring pair. */
  function Implode(sep: string, parts: seq<string>): (r: string)
    ensures parts == [] ==> r == ""
    ensures |parts| == 1 ==> r == parts[0]
  {
    if parts == [] then ""
    else if |parts| == 1 then parts[0]
    else parts[0] + sep + Implode(sep, parts[1..])
  }

  /** Imploding a list with a first element is that element, the separator, then the rest imploded. */
  lemma ImplodeCons(sep: string, first: string, rest: seq<string>)
    requires rest != []
    ensures Implode(sep, [first] + rest) == first + sep + Implode(sep, rest)
  {
    assert ([first] + rest)[1..] == rest;
  }

  /** `mb_substr($s, 0, $length)`: a negative length stops that many characters before the end. */
  function MbPrefix(s: string, length: int): (r: string)
    ensures |r| <= |s| && r == s[..|r|]
    ensures 0 <= length ==> |r| == if length < |s| then length else |s|
    ensures length < 0 ==> |r| == if |s| + length > 0 then |s| + length else 0
  {
    if length >= 0 then (if length < |s| then s[..length] else s)
    else if |s| + length > 0 then s[..|s| + length]
    else []
  }

  /** `(string) $v`, as a template or a `??` fallback renders it. */
  function StrCast(v: Value): string {
    match v
    case Null => ""
    case Int(i) => StrVal(i)
    case Str(s) => s
    case Bool(b) => if b then "1" else ""
  }

  // ---------------------------------------------------------------------------------------------
  // HTML text filters

  /** What `htmlspecialchars` with `ENT_QUOTES` writes for one character. */
  function EscapeChar(c: char): string {
    if c == '&' then "&amp;"
    else if c == '<' then "&lt;"
    else if c == '>' then "&gt;"
    else if c == '"' then "&quot;"
    else if c == '\'' then "&#039;"
    else [c]
  }

  /** `e($s)`: the text with the five HTML-special characters replaced by entities. */
  function Escape(s: string): (r: string)
    ensures '<' !in r && '>' !in r && '"' !in r && '\'' !in r
  {
    if s == [] then [] else EscapeChar(s[0]) + Escape(s[1..])
  }

  /** The characters `e()` rewrites. */
  predicate IsSpecial(c: char) {
    c == '&' || c == '<' || c == '>' || c == '"' || c == '\''
  }

  /** Text with no HTML-special character passes through `e()` unchanged. */
  lemma {:induction false} EscapePlain(s: string)
    requires forall i | 0 <= i < |s| :: !IsSpecial(s[i])
    ensures Escape(s) == s
  {
    if s != [] {
      var rest := s[1..];
      assert forall i | 0 <= i < |rest| :: rest[i] == s[i + 1];
      EscapePlain(rest);
      assert EscapeChar(s[0]) == [s[0]];
      assert Escape(s) == [s[0]] + Escape(rest);
      assert s == [s[0]] + rest;
    }
  }

  /** Decodes the five entities `Escape` writes, the reverse of `e()`. */
  function Unescape(t: string): string {
    if t == [] then []
    else if t[0] != '&' then [t[0]] + Unescape(t[1..])
    else if |t| >= 5 && t[..5] == "&amp;" then "&" + Unescape(t[5..])
    else if |t| >= 4 && t[..4] == "&lt;" then "<" + Unescape(t[4..])
    else if |t| >= 4 && t[..4] == "&gt;" then ">" + Unescape(t[4..])
    else if |t| >= 6 && t[..6] == "&quot;" then "\"" + Unescape(t[6..])
    else if |t| >= 6 && t[..6] == "&#039;" then "'" + Unescape(t[6..])
    else [t[0]] + Unescape(t[1..])
  }

  lemma UnescapeAmp(rest: string)
    ensures Unescape("&amp;" + rest) == "&" + Unescape(rest)
  {
    var t := "&amp;" + rest;
    assert t[..5] == "&amp;" && t[5..] == rest;
  }

  lemma UnescapeLt(rest: string)
    ensures Unescape("&lt;" + rest) == "<" + Unescape(rest)
  {
    var t := "&lt;" + rest;
    assert t[1] == 'l';
    assert t[..4] == "&lt;" && t[4..] == rest;
  }

  lemma UnescapeGt(rest: string)
    ensures Unescape("&gt;" + rest) == ">" + Unescape(rest)
  {
    var t := "&gt;" + rest;
    assert t[1] == 'g';
    assert t[..4] == "&gt;" && t[4..] == rest;
  }

  lemma UnescapeQuot(rest: string)
    ensures Unescape("&quot;" + rest) == "\"" + Unescape(rest)
  {
    var t := "&quot;" + rest;
    assert t[1] == 'q';
    assert t[..6] == "&quot;" && t[6..] == rest;
  }

  lemma UnescapeApos(rest: string)
    ensures Unescape("&#039;" + rest) == "'" + Unescape(rest)
  {
    var t := "&#039;" + rest;
    assert t[1] == '#';
    assert t[..6] == "&#039;" && t[6..] == rest;
  }

  lemma UnescapePlain(c: char, rest: string)
    requires c != '&'
    ensures Unescape([c] + rest) == [c] + Unescape(rest)
  {
    var t := [c] + rest;
    assert t[0] == c && t[1..] == rest;
  }

  lemma UnescapeStep(c: char, rest: string)
    ensures Unescape(EscapeChar(c) + rest) == [c] + Unescape(rest)
  {
    if c == '&' {
      UnescapeAmp(rest);
    } else if c == '<' {
      UnescapeLt(rest);
    } else if c == '>' {
      UnescapeGt(rest);
    } else if c == '"' {
      UnescapeQuot(rest);
    } else if c == '\'' {
      UnescapeApos(rest);
    } else {
      UnescapePlain(c, rest);
    }
  }

  /** Escaping loses nothing: the original text can always be read back. */
  lemma {:induction false} UnescapeEscape(s: string)
    ensures Unescape(Escape(s)) == s
  {
    if s != [] {
      UnescapeEscape(s[1..]);
      UnescapeStep(s[0], Escape(s[1..]));
      assert s == [s[0]] + s[1..];
    }
  }

  predicate IsLineBreak(c: char) {
    c == '\n' || c == '\r'
  }

  const BreakTag: string := "<br />"

  /**
   * `nl2br($s)`: "<br />" in front of every line break, where "\r\n" and "\n\r" each count as one
   * break.
   */
  function Nl2br(s: string): (r: string)
    ensures (forall c | c in s :: !IsLineBreak(c)) ==> r == s
    ensures |r| >= |s|
  {
    if s == [] then []
    else if IsLineBreak(s[0]) then
      if |s| >= 2 && IsLineBreak(s[1]) && s[1] != s[0] then BreakTag + ([s[0]] + ([s[1]] + Nl2br(s[2..])))
      else BreakTag + ([s[0]] + Nl2br(s[1..]))
    else [s[0]] + Nl2br(s[1..])
  }

  /** Removes every "<br />" tag, the reverse of `Nl2br` on text without markup. */
  function RemoveBreaks(t: string): string {
    if t == [] then []
    else if t[0] != '<' then [t[0]] + RemoveBreaks(t[1..])
    else if |t| >= 6 && t[..6] == BreakTag then RemoveBreaks(t[6..])
    else [t[0]] + RemoveBreaks(t[1..])
  }

  lemma RemoveBreaksTag(t: string)
    ensures RemoveBreaks(BreakTag + t) == RemoveBreaks(t)
  {
    assert (BreakTag + t)[..6] == BreakTag && (BreakTag + t)[6..] == t;
  }

  lemma RemoveBreaksPlain(c: char, t: string)
    requires c != '<'
    ensures RemoveBreaks([c] + t) == [c] + RemoveBreaks(t)
  {
    assert ([c] + t)[1..] == t;
  }

  /** On text with no '<', the tags `Nl2br` inserts are the only ones, so removing them restores it. */
  lemma {:induction false} RemoveBreaksNl2br(s: string)
    requires '<' !in s
    ensures RemoveBreaks(Nl2br(s)) == s
  {
    if s != [] {
      if IsLineBreak(s[0]) && |s| >= 2 && IsLineBreak(s[1]) && s[1] != s[0] {
        RemoveBreaksNl2br(s[2..]);
        RemoveBreaksPair(s);
      } else {
        RemoveBreaksNl2br(s[1..]);
        RemoveBreaksSingle(s);
      }
    }
  }

  /** The step of `RemoveBreaksNl2br` over a two-character break. */
  lemma RemoveBreaksPair(s: string)
    requires |s| >= 2 && s[0] != '<' && s[1] != '<'
    requires IsLineBreak(s[0]) && IsLineBreak(s[1]) && s[1] != s[0]
    requires RemoveBreaks(Nl2br(s[2..])) == s[2..]
    ensures RemoveBreaks(Nl2br(s)) == s
  {
    var tail := Nl2br(s[2..]);
    RemoveBreaksTag([s[0]] + ([s[1]] + tail));
    RemoveBreaksPlain(s[0], [s[1]] + tail);
    RemoveBreaksPlain(s[1], tail);
    assert s == [s[0]] + ([s[1]] + s[2..]);
  }

  /** The step of `RemoveBreaksNl2br` over one character, a break or not. */
  lemma RemoveBreaksSingle(s: string)
    requires |s| >= 1 && s[0] != '<'
    requires !(IsLineBreak(s[0]) && |s| >= 2 && IsLineBreak(s[1]) && s[1] != s[0])
    requires RemoveBreaks(Nl2br(s[1..])) == s[1..]
    ensures RemoveBreaks(Nl2br(s)) == s
  {
    var tail := Nl2br(s[1..]);
    if IsLineBreak(s[0]) {
      RemoveBreaksTag([s[0]] + tail);
    }
    RemoveBreaksPlain(s[0], tail);
    assert s == [s[0]] + s[1..];
  }
}
