/**
 * The few pieces of Python string handling the label-file parser and the
 * fallback region names rely on: str.isspace, str.strip, str.split with and
 * without a separator, int(str) in base 10 and str(int).
 */
module Text {
  import opened Wrappers

  /** Python's str.isspace for one character. */
  predicate IsSpace(c: char) {
    c == ' ' || '\t' <= c <= '\r' || '\U{1C}' <= c <= '\U{1F}' || c == '\U{85}' || c == '\U{A0}' ||
    c == '\U{1680}' || '\U{2000}' <= c <= '\U{200A}' || c == '\U{2028}' || c == '\U{2029}' ||
    c == '\U{202F}' || c == '\U{205F}' || c == '\U{3000}'
  }

  predicate IsDigit(c: char) {
    '0' <= c <= '9'
  }

  /** s with its leading whitespace removed (str.lstrip()). */
  function TrimStart(s: string): (r: string)
    ensures |r| <= |s| && r == s[|s| - |r|..]
    ensures r == [] || !IsSpace(r[0])
    ensures forall i :: 0 <= i < |s| - |r| ==> IsSpace(s[i])
  {
    if |s| > 0 && IsSpace(s[0]) then TrimStart(s[1..]) else s
  }

  /** lstrip() removes exactly a leading run of whitespace that ends where the text begins. */
  lemma {:induction false} TrimStartOf(ws: string, t: string)
    requires forall i :: 0 <= i < |ws| ==> IsSpace(ws[i])
    requires t == [] || !IsSpace(t[0])
    ensures TrimStart(ws + t) == t
  {
    if ws != [] {
      assert (ws + t)[0] == ws[0];
      assert (ws + t)[1..] == ws[1..] + t;
      TrimStartOf(ws[1..], t);
    } else {
      assert ws + t == t;
    }
  }

  /** s with its trailing whitespace removed (str.rstrip()). */
  function TrimEnd(s: string): (r: string)
    ensures |r| <= |s| && r == s[..|r|]
    ensures r == [] || !IsSpace(r[|r| - 1])
    ensures forall i :: |r| <= i < |s| ==> IsSpace(s[i])
  {
    if |s| > 0 && IsSpace(s[|s| - 1]) then TrimEnd(s[..|s| - 1]) else s
  }

  /** rstrip() of a concatenation: the second part's trailing whitespace goes first, then the first part's. */
  lemma {:induction false} TrimEndConcat(a: string, b: string)
    ensures TrimEnd(a + b) == if TrimEnd(b) == [] then TrimEnd(a) else a + TrimEnd(b)
    decreases |b|
  {
    if b == [] {
      assert a + b == a;
    } else if IsSpace(b[|b| - 1]) {
      assert (a + b)[..|a + b| - 1] == a + b[..|b| - 1];
      TrimEndConcat(a, b[..|b| - 1]);
    }
  }

  /** str.strip(): whitespace removed at both ends. */
  function Strip(s: string): string {
    TrimEnd(TrimStart(s))
  }

  /** strip() of text after leading whitespace is the rstrip() of that text. */
  lemma StripIndented(line: string, indent: string, rest: string)
    requires line == indent + rest
    requires forall i :: 0 <= i < |indent| ==> IsSpace(indent[i])
    requires rest == [] || !IsSpace(rest[0])
    ensures Strip(line) == TrimEnd(rest)
  {
    TrimStartOf(indent, rest);
  }

  /**
   * strip() of text framed by leading whitespace and any trailing text: the
   * text, followed by the trailing text's rstrip().
   */
  lemma StripFramed(line: string, indent: string, core: string, tail: string)
    requires line == indent + core + tail
    requires forall i :: 0 <= i < |indent| ==> IsSpace(indent[i])
    requires |core| > 0 && !IsSpace(core[0]) && !IsSpace(core[|core| - 1])
    ensures Strip(line) == core + TrimEnd(tail)
  {
    var rest := core + tail;
    assert rest[0] == core[0];
    StripIndented(line, indent, rest);
    TrimEndConcat(core, tail);
  }


  /** The stripped string is a piece of the original with no whitespace at either end. */
  lemma StripTrimmed(s: string)
    ensures forall c :: c in Strip(s) ==> c in s
    ensures Strip(s) == [] || (!IsSpace(Strip(s)[0]) && !IsSpace(Strip(s)[|Strip(s)| - 1]))
  {
    var t := TrimStart(s);
    var r := TrimEnd(t);
    forall c | c in r ensures c in s {
      var i :| 0 <= i < |r| && r[i] == c;
      assert t[i] == c;
      assert s[|s| - |t| + i] == c;
    }
    if r != [] {
      assert r[0] == t[0];
    }
  }

  /** The text before the first '"' of s: element 0 of s.split('"'). */
  function BeforeQuote(s: string): (r: string)
    ensures |r| <= |s| && r == s[..|r|]
    ensures '"' !in r
    ensures |r| == |s| || s[|r|] == '"'
    ensures '"' in s ==> |r| < |s|
  {
    if |s| == 0 || s[0] == '"' then [] else [s[0]] + BeforeQuote(s[1..])
  }

  /** The leading run of non-whitespace characters of s. */
  function TakeWord(s: string): (w: string)
    ensures |w| <= |s| && w == s[..|w|]
    ensures forall i :: 0 <= i < |w| ==> !IsSpace(w[i])
    ensures |w| == |s| || IsSpace(s[|w|])
  {
    if |s| == 0 || IsSpace(s[0]) then [] else [s[0]] + TakeWord(s[1..])
  }

  /** s.split()[0], or None where Python raises IndexError because s holds only whitespace. */
  function FirstWord(s: string): Option<string> {
    var t := TrimStart(s);
    if t == [] then None else Some(TakeWord(t))
  }

  /** The digits-and-underscores body Python's int() accepts in base 10 (after the sign). */
  predicate IsDecimalBody(t: string) {
    |t| > 0 && IsDigit(t[0]) && IsDigit(t[|t| - 1]) &&
    forall i :: 0 < i < |t| ==> IsDigit(t[i]) || (t[i] == '_' && IsDigit(t[i - 1]))
  }

  function DigitValue(c: char): nat {
    if IsDigit(c) then c as int - '0' as int else 0
  }

  /** The value of a decimal body; underscores are separators and carry no value. */
  function DigitsValue(t: string): nat {
    if t == [] then 0
    else if t[|t| - 1] == '_' then DigitsValue(t[..|t| - 1])
    else DigitsValue(t[..|t| - 1]) * 10 + DigitValue(t[|t| - 1])
  }

  /** int(t) in base 10 for a token without surrounding whitespace; None where Python raises. */
  function ParseInt(t: string): Option<int> {
    if |t| > 0 && (t[0] == '+' || t[0] == '-') then
      if IsDecimalBody(t[1..]) then
        var v: int := DigitsValue(t[1..]);
        Some(if t[0] == '-' then -v else v)
      else None
    else if IsDecimalBody(t) then Some(DigitsValue(t))
    else None
  }

  /** int() accepts a sign, leading zeros and single underscores between digits. */
  lemma ParseIntAccepts()
    ensures ParseInt("007") == Some(7)
    ensures ParseInt("+5") == Some(5)
    ensures ParseInt("-1_0") == Some(-10)
  {
    assert "007"[..2] == "00" && "00"[..1] == "0" && "0"[..0] == [];
    assert "+5"[1..] == "5" && "5"[..0] == [];
    assert "-1_0"[1..] == "1_0";
    assert "1_0"[..2] == "1_" && "1_"[..1] == "1" && "1"[..0] == [];
  }

  /** int() refuses doubled, leading or trailing underscores, a bare sign and other characters. */
  lemma ParseIntRefuses()
    ensures ParseInt("1__0") == None && ParseInt("_1") == None && ParseInt("1_") == None
    ensures ParseInt("") == None && ParseInt("-") == None && ParseInt("1a") == None
  {
    assert !IsDecimalBody("1__0") by {
      assert "1__0"[2] == '_' && "1__0"[1] == '_';
    }
    assert !IsDecimalBody("1a") by {
      assert "1a"[1] == 'a';
    }
    assert "-"[1..] == [];
  }


  function DigitChar(d: nat): (c: char)
    requires d < 10
    ensures IsDigit(c) && DigitValue(c) == d
  {
    ('0' as int + d) as char
  }

  /** str(n) for a natural number: its decimal digits, no leading zeros. */
  function NatToString(n: nat): (s: string)
    ensures |s| > 0
    ensures forall i :: 0 <= i < |s| ==> IsDigit(s[i])
    ensures |s| > 1 ==> s[0] != '0'
  {
    if n < 10 then [DigitChar(n)] else NatToString(n / 10) + [DigitChar(n % 10)]
  }

  /** str(n) for an integer. */
  function IntToString(n: int): string {
    if n < 0 then "-" + NatToString(-n) else NatToString(n)
  }

  lemma {:induction false} NatToStringValue(n: nat)
    ensures IsDecimalBody(NatToString(n))
    ensures DigitsValue(NatToString(n)) == n
  {
    var s := NatToString(n);
    if n >= 10 {
      NatToStringValue(n / 10);
      var p := NatToString(n / 10);
      assert s == p + [DigitChar(n % 10)];
      assert s[..|s| - 1] == p;
    }
  }

  /** Parsing the digits of a natural number gives the number back. */
  lemma ParseIntNat(s: string, n: nat)
    requires s == NatToString(n)
    ensures ParseInt(s) == Some(n)
  {
    NatToStringValue(n);
    assert IsDigit(s[0]);
  }

  /** Parsing a minus sign followed by the digits of a natural number gives its negation. */
  lemma ParseIntNegative(s: string, n: nat)
    requires s == "-" + NatToString(n)
    ensures ParseInt(s) == Some(-(n as int))
  {
    NatToStringValue(n);
    assert s[0] == '-' && s[1..] == NatToString(n);
  }

  /** Parsing what str() prints gives the number back. */
  lemma ParseIntToString(n: int)
    ensures ParseInt(IntToString(n)) == Some(n)
  {
    if n < 0 {
      ParseIntNegative(IntToString(n), -n);
    } else {
      ParseIntNat(IntToString(n), n);
    }
  }


  /** The printed form of an integer is a sign and digits: no whitespace, no quote, no '#'. */
  lemma IntToStringPlain(n: int)
    ensures |IntToString(n)| > 0
    ensures forall i :: 0 <= i < |IntToString(n)| ==> IsDigit(IntToString(n)[i]) || IntToString(n)[i] == '-'
    ensures forall i :: 0 <= i < |IntToString(n)| ==> !IsSpace(IntToString(n)[i]) && IntToString(n)[i] != '"'
  {
  }
}
