/**
 * JSON text for a list of strings, as the visibility store writes and reads it:
 * `JSON.stringify` of an array of strings, and `JSON.parse` for texts that
 * denote an array of strings.  Every other text, whether malformed or valid
 * JSON of another shape, parses to `None`.
 */
module Json {
  import opened Base

  /** `JSON.stringify(items)` for an array of strings. */
  function Stringify(items: seq<string>): (text: string)
    ensures |text| >= 2 && text[0] == '['
  {
    "[" + ArrayRest(items, "")
  }

  /**
   * What follows the opening bracket: the elements separated by commas,
   * without white space, then the closing bracket and `t`.
   */
  function ArrayRest(items: seq<string>, t: string): (text: string)
    ensures |text| > 0 && text[0] == (if items == [] then ']' else '"')
  {
    if items == [] then "]" + t
    else Quote(items[0]) + (if |items| == 1 then "]" + t else "," + ArrayRest(items[1..], t))
  }

  /** A string literal. */
  function Quote(s: string): (text: string)
    ensures |text| > 0 && text[0] == '"'
  {
    "\"" + Escape(s) + "\""
  }

  function Escape(s: string): string
  {
    if s == [] then "" else EscapeChar(s[0]) + Escape(s[1..])
  }

  /**
   * How `JSON.stringify` writes one character inside a string literal: the
   * quote, the backslash and the control characters are escaped, with the
   * short forms where JSON has one and `\u00xx` (lower-case hex) otherwise.
   */
  function EscapeChar(c: char): string
  {
    if c == '"' then "\\\""
    else if c == '\\' then "\\\\"
    else if c as int == 8 then "\\b"
    else if c as int == 12 then "\\f"
    else if c == '\n' then "\\n"
    else if c == '\r' then "\\r"
    else if c == '\t' then "\\t"
    else if (c as int) < 0x20 then "\\u00" + [HexDigit((c as int) / 16), HexDigit((c as int) % 16)]
    else [c]
  }

  function HexDigit(d: nat): char
    requires d < 16
  {
    if d < 10 then ('0' as int + d) as char else ('a' as int + d - 10) as char
  }

  /** The value of one hexadecimal digit, in either case. */
  function HexValue(c: char): (v: Option<nat>)
    ensures v.Some? ==> v.value < 16
  {
    if '0' <= c <= '9' then Some(c as int - '0' as int)
    else if 'a' <= c <= 'f' then Some(c as int - 'a' as int + 10)
    else if 'A' <= c <= 'F' then Some(c as int - 'A' as int + 10)
    else None
  }

  lemma HexValueOfDigit(d: nat)
    requires d < 16
    ensures HexValue(HexDigit(d)) == Some(d)
  {
  }

  /** The code unit written as four hexadecimal digits. */
  function Hex4(s: string): (v: Option<nat>)
    requires |s| == 4
    ensures v.Some? ==> v.value < 0x10000
  {
    match (HexValue(s[0]), HexValue(s[1]), HexValue(s[2]), HexValue(s[3]))
    case (Some(a), Some(b), Some(c), Some(d)) => Some(((a * 16 + b) * 16 + c) * 16 + d)
    case _ => None
  }

  /** JSON white space. */
  predicate IsJsonSpace(c: char)
  {
    c == ' ' || c == '\t' || c == '\n' || c == '\r'
  }

  function SkipSpace(s: string): (r: string)
    ensures |r| <= |s|
    ensures r == [] || !IsJsonSpace(r[0])
  {
    if s != [] && IsJsonSpace(s[0]) then SkipSpace(s[1..]) else s
  }

  /**
   * One escape sequence, `s` being what follows the backslash: the character
   * it stands for and the text after it.  A `\u` escape of a lone surrogate
   * half has no character here and is refused.
   */
  function Unescape(s: string): (r: Option<(char, string)>)
    ensures r.Some? ==> |r.value.1| < |s|
  {
    if s == [] then None
    else if s[0] == '"' then Some(('"', s[1..]))
    else if s[0] == '\\' then Some(('\\', s[1..]))
    else if s[0] == '/' then Some(('/', s[1..]))
    else if s[0] == 'b' then Some((8 as char, s[1..]))
    else if s[0] == 'f' then Some((12 as char, s[1..]))
    else if s[0] == 'n' then Some(('\n', s[1..]))
    else if s[0] == 'r' then Some(('\r', s[1..]))
    else if s[0] == 't' then Some(('\t', s[1..]))
    else if s[0] == 'u' && |s| >= 5 then
      match Hex4(s[1..5])
      case Some(v) => if v < 0xD800 || 0xE000 <= v then Some((v as char, s[5..])) else None
      case None => None
    else None
  }

  /**
   * The rest of a string literal, `s` being what follows its opening quote:
   * the characters it denotes and the text after its closing quote.  Raw
   * control characters are not allowed inside a literal.
   */
  function ParseChars(s: string): (r: Option<(string, string)>)
    ensures r.Some? ==> |r.value.1| < |s|
    decreases |s|
  {
    if s == [] then None
    else if s[0] == '"' then Some(("", s[1..]))
    else if s[0] == '\\' then
      match Unescape(s[1..])
      case None => None
      case Some((c, after)) =>
        match ParseChars(after)
        case None => None
        case Some((chars, rest)) => Some(([c] + chars, rest))
    else if (s[0] as int) < 0x20 then None
    else
      match ParseChars(s[1..])
      case None => None
      case Some((chars, rest)) => Some(([s[0]] + chars, rest))
  }

  /**
   * Array elements from a string literal on: `"…" (, "…")* ]`, with white space
   * around the separators; the strings and the text after the closing bracket.
   */
  function ParseItems(s: string): (r: Option<(seq<string>, string)>)
    decreases |s|
  {
    if s == [] || s[0] != '"' then None
    else
      match ParseChars(s[1..])
      case None => None
      case Some((item, after)) =>
        var u := SkipSpace(after);
        if u == [] then None
        else if u[0] == ']' then Some(([item], u[1..]))
        else if u[0] == ',' then
          match ParseItems(SkipSpace(u[1..]))
          case None => None
          case Some((more, rest)) => Some(([item] + more, rest))
        else None
  }

  /** `JSON.parse(text)` when the text is an array of strings; `None` otherwise. */
  function Parse(text: string): Option<seq<string>>
  {
    var s := SkipSpace(text);
    if s == [] || s[0] != '[' then None
    else
      var inner := SkipSpace(s[1..]);
      if inner != [] && inner[0] == ']' then
        if SkipSpace(inner[1..]) == [] then Some([]) else None
      else
        match ParseItems(inner)
        case None => None
        case Some((items, rest)) => if SkipSpace(rest) == [] then Some(items) else None
  }

  /** A `\u00xx` escape of a control character reads back as that character. */
  lemma UnescapeControl(c: char, t: string)
    requires (c as int) < 0x20
    ensures var n := c as int;
      Unescape(['u', '0', '0', HexDigit(n / 16), HexDigit(n % 16)] + t) == Some((c, t))
  {
    var n := c as int;
    var s := ['u', '0', '0', HexDigit(n / 16), HexDigit(n % 16)] + t;
    HexValueOfDigit(n / 16);
    HexValueOfDigit(n % 16);
    assert s[1..5] == ['0', '0', HexDigit(n / 16), HexDigit(n % 16)];
    assert Hex4(s[1..5]) == Some(n);
    assert s[5..] == t;
  }

  /** One escaped character reads back as itself. */
  lemma EscapeCharRoundTrip(c: char, t: string)
    ensures ParseChars(EscapeChar(c) + t) ==
      match ParseChars(t) case None => None case Some((chars, rest)) => Some(([c] + chars, rest))
  {
    var e := EscapeChar(c);
    var s := e + t;
    if c != '"' && c != '\\' && (c as int) < 0x20 && c as int !in {8, 12, 10, 13, 9} {
      var n := c as int;
      assert s[1..] == ['u', '0', '0', HexDigit(n / 16), HexDigit(n % 16)] + t;
      UnescapeControl(c, t);
    } else if e == [c] {
      assert s[1..] == t;
    } else {
      assert s[1..][1..] == t;
    }
  }

  /** A string literal's body reads back as the string. */
  lemma {:induction false} EscapeRoundTrip(x: string, t: string)
    ensures ParseChars(Escape(x) + "\"" + t) == Some((x, t))
    decreases |x|
  {
    if x == [] {
      assert Escape(x) + "\"" + t == "\"" + t;
      assert ("\"" + t)[1..] == t;
    } else {
      var rest := Escape(x[1..]) + "\"" + t;
      assert Escape(x) + "\"" + t == EscapeChar(x[0]) + rest;
      EscapeCharRoundTrip(x[0], rest);
      EscapeRoundTrip(x[1..], t);
      assert [x[0]] + x[1..] == x;
    }
  }

  /** A string literal reads back as the string. */
  lemma QuoteRoundTrip(x: string, t: string)
    ensures |Quote(x) + t| > 0 && (Quote(x) + t)[0] == '"'
    ensures ParseChars((Quote(x) + t)[1..]) == Some((x, t))
  {
    assert (Quote(x) + t)[1..] == Escape(x) + "\"" + t;
    EscapeRoundTrip(x, t);
  }

  /** A string literal followed by the closing bracket reads back as one string. */
  lemma ParseItemsLast(s: string, x: string, t: string)
    requires |s| > 0 && s[0] == '"' && ParseChars(s[1..]) == Some((x, "]" + t))
    ensures ParseItems(s) == Some(([x], t))
  {
    var after := "]" + t;
    assert SkipSpace(after) == after;
    assert after[1..] == t;
  }

  /** A string literal followed by a comma reads back as that string before the rest. */
  lemma ParseItemsComma(s: string, x: string, more: string, items: seq<string>, rest: string)
    requires |s| > 0 && s[0] == '"' && ParseChars(s[1..]) == Some((x, "," + more))
    requires |more| > 0 && more[0] == '"' && ParseItems(more) == Some((items, rest))
    ensures ParseItems(s) == Some(([x] + items, rest))
  {
    var after := "," + more;
    assert SkipSpace(after) == after;
    assert after[1..] == more;
    assert SkipSpace(more) == more;
  }

  /** The elements of a non-empty array, its closing bracket and what follows read back as the strings. */
  lemma {:induction false} ArrayRestRoundTrip(items: seq<string>, t: string)
    requires items != []
    ensures ParseItems(ArrayRest(items, t)) == Some((items, t))
    decreases |items|
  {
    var x := items[0];
    var s := ArrayRest(items, t);
    if |items| == 1 {
      QuoteRoundTrip(x, "]" + t);
      ParseItemsLast(s, x, t);
      assert [x] == items;
    } else {
      var more := ArrayRest(items[1..], t);
      ArrayRestRoundTrip(items[1..], t);
      QuoteRoundTrip(x, "," + more);
      ParseItemsComma(s, x, more, items[1..], t);
      assert [x] + items[1..] == items;
    }
  }

  /** Parsing what `Stringify` wrote gives the list back. */
  lemma ParseStringify(items: seq<string>)
    ensures Parse(Stringify(items)) == Some(items)
  {
    var text := Stringify(items);
    var inner := ArrayRest(items, "");
    assert text[1..] == inner;
    if items == [] {
      assert inner[1..] == "";
    } else {
      ArrayRestRoundTrip(items, "");
    }
  }

  /** `Stringify` never writes the empty string, which the store reads as "nothing stored". */
  lemma StringifyNonEmpty(items: seq<string>)
    ensures Stringify(items) != ""
  {
  }
}
