/**
 * The part of `JSON.stringify` that the pop-launcher client relies on: the
 * quoting of strings and the printing of integers, with their decoders as
 * partners. Characters are Unicode scalar values, so the lone surrogates that
 * `JSON.stringify` would escape cannot occur.
 */
module JsonText {
  import opened Wrappers

  const HexDigits: string := "0123456789abcdef"

  /** The escape `JSON.stringify` writes for one character of a string. */
  function EscapeChar(c: char): (e: string)
    ensures '\n' !in e && '\r' !in e
  {
    if c == '\U{8}' then "\\b"
    else if c == '\t' then "\\t"
    else if c == '\n' then "\\n"
    else if c == '\U{C}' then "\\f"
    else if c == '\r' then "\\r"
    else if c == '"' then "\\\""
    else if c == '\\' then "\\\\"
    else if c < ' ' then "\\u00" + [HexDigits[c as int / 16], HexDigits[c as int % 16]]
    else [c]
  }

  /** The body of a quoted JSON string: every character escaped in turn. */
  function Escape(s: string): (t: string)
    ensures '\n' !in t && '\r' !in t
    decreases |s|
  {
    if s == [] then [] else EscapeChar(s[0]) + Escape(s[1..])
  }

  /**
   * `JSON.stringify(s)` for a string `s`: a quoted body on one line, from
   * which the decoder recovers `s`.
   */
  function Quote(s: string): (t: string)
    ensures '\n' !in t
    ensures |t| >= 2 && t[0] == '"' && t[|t| - 1] == '"'
    ensures Unescape(t[1..|t| - 1]) == Some(s)
  {
    var body := Escape(s);
    UnescapeEscape(s);
    var t := "\"" + body + "\"";
    assert t[1..|t| - 1] == body;
    t
  }

  function HexValue(d: char): Option<nat>
  {
    if '0' <= d <= '9' then Some(d as int - '0' as int)
    else if 'a' <= d <= 'f' then Some(d as int - 'a' as int + 10)
    else if 'A' <= d <= 'F' then Some(d as int - 'A' as int + 10)
    else None
  }

  /** The code point written by four hexadecimal digits, when it is a character. */
  function CodePoint(h: string): Option<char>
    requires |h| == 4
  {
    match (HexValue(h[0]), HexValue(h[1]), HexValue(h[2]), HexValue(h[3]))
    case (Some(a), Some(b), Some(c), Some(d)) =>
      var v := ((a * 16 + b) * 16 + c) * 16 + d;
      if 0xD800 <= v < 0xE000 then None else Some(v as char)
    case _ => None
  }

  function Cons(c: char, rest: Option<string>): Option<string>
  {
    match rest
    case Some(s) => Some([c] + s)
    case None => None
  }

  /**
   * The string a JSON string body denotes (the reverse of `Escape`), or
   * `None` for a body that is not well formed.
   */
  function Unescape(t: string): Option<string>
    decreases |t|
  {
    if t == [] then Some([])
    else if t[0] == '"' || t[0] < ' ' then None
    else if t[0] != '\\' then Cons(t[0], Unescape(t[1..]))
    else if |t| < 2 then None
    else if t[1] == 'b' then Cons('\U{8}', Unescape(t[2..]))
    else if t[1] == 't' then Cons('\t', Unescape(t[2..]))
    else if t[1] == 'n' then Cons('\n', Unescape(t[2..]))
    else if t[1] == 'f' then Cons('\U{C}', Unescape(t[2..]))
    else if t[1] == 'r' then Cons('\r', Unescape(t[2..]))
    else if t[1] == '"' || t[1] == '\\' || t[1] == '/' then Cons(t[1], Unescape(t[2..]))
    else if t[1] == 'u' && |t| >= 6 then
      match CodePoint(t[2..6])
      case Some(c) => Cons(c, Unescape(t[6..]))
      case None => None
    else None
  }

  /** A control character without a short escape is read back from its `\u00xx` form. */
  lemma UnescapeControl(c: char, rest: string)
    requires c < ' ' && c != '\U{8}' && c != '\t' && c != '\n' && c != '\U{C}' && c != '\r'
    ensures Unescape(EscapeChar(c) + rest) == Cons(c, Unescape(rest))
  {
    var hi, lo := c as int / 16, c as int % 16;
    assert hi <= 1;
    var t := EscapeChar(c) + rest;
    assert t == ['\\', 'u', '0', '0', HexDigits[hi], HexDigits[lo]] + rest;
    assert t[2..6] == ['0', '0', HexDigits[hi], HexDigits[lo]];
    assert HexValue(HexDigits[hi]) == Some(hi);
    assert HexValue(HexDigits[lo]) == Some(lo);
    assert CodePoint(t[2..6]) == Some(c);
    assert t[6..] == rest;
  }

  lemma UnescapeChar(c: char, rest: string)
    ensures Unescape(EscapeChar(c) + rest) == Cons(c, Unescape(rest))
  {
    var e := EscapeChar(c);
    if c < ' ' && c != '\U{8}' && c != '\t' && c != '\n' && c != '\U{C}' && c != '\r' {
      UnescapeControl(c, rest);
    } else if |e| == 1 {
      assert (e + rest)[1..] == rest;
    } else {
      assert (e + rest)[2..] == rest;
    }
  }

  /** Escaping loses nothing: the decoder gives back the original string. */
  lemma {:induction false} UnescapeEscape(s: string)
    ensures Unescape(Escape(s)) == Some(s)
    decreases |s|
  {
    if s != [] {
      UnescapeChar(s[0], Escape(s[1..]));
      UnescapeEscape(s[1..]);
      assert [s[0]] + s[1..] == s;
    }
  }

  /** The decimal digits of a natural number, most significant first. */
  function Digits(n: nat): (t: string)
    ensures |t| >= 1
    ensures forall i :: 0 <= i < |t| ==> '0' <= t[i] <= '9'
  {
    if n < 10 then [HexDigits[n]] else Digits(n / 10) + [HexDigits[n % 10]]
  }

  /** `Number.MAX_SAFE_INTEGER`, 2^53 - 1. */
  const MaxSafeInteger: int := 0x1F_FFFF_FFFF_FFFF

  /**
   * The integers a JavaScript number holds exactly and consecutively. Their
   * magnitude is below 10^21, so `JSON.stringify` prints them as plain
   * decimal digits, never in exponent form.
   */
  type SafeInteger = n: int | -MaxSafeInteger <= n <= MaxSafeInteger

  /**
   * `JSON.stringify(n)` for a safe integer `n`: an optional minus sign and
   * decimal digits on one line, which the decoder reads back as `n`.
   */
  function Int(n: SafeInteger): (t: string)
    ensures '\n' !in t
    ensures IntValue(t) == Some(n)
  {
    DigitsValueDigits(if n < 0 then -n else n);
    var t := if n < 0 then "-" + Digits(-n) else Digits(n);
    assert n < 0 ==> t[1..] == Digits(-n);
    t
  }

  /** The number a run of decimal digits denotes. */
  function DigitsValue(t: string): nat
    requires forall i :: 0 <= i < |t| ==> '0' <= t[i] <= '9'
  {
    if t == [] then 0 else DigitsValue(t[..|t| - 1]) * 10 + (t[|t| - 1] as int - '0' as int)
  }

  /**
   * Decodes exactly the digit strings `Int` writes (the reverse of `Int`), or
   * `None`; it is not a full reader of JSON numbers.
   */
  function IntValue(t: string): Option<int>
  {
    if t == [] then None
    else if t[0] == '-' then
      if |t| >= 2 && forall i :: 1 <= i < |t| ==> '0' <= t[i] <= '9' then Some(-(DigitsValue(t[1..]) as int)) else None
    else if forall i :: 0 <= i < |t| ==> '0' <= t[i] <= '9' then Some(DigitsValue(t)) else None
  }

  lemma {:induction false} DigitsValueDigits(n: nat)
    ensures DigitsValue(Digits(n)) == n
  {
    if n >= 10 {
      DigitsValueDigits(n / 10);
      var t := Digits(n);
      assert t[..|t| - 1] == Digits(n / 10);
    }
  }
}
