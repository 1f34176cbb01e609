/**
 * JSON string literals (section 7 of RFC 8259), as the completion items write their labels.
 *
 * `Quote` produces the literal the way ECMAScript's `JSON.stringify` does for a string:
 * the two-character escapes for quotation mark, reverse solidus, backspace, form feed,
 * line feed, carriage return and tab, a lower-case `\u00XX` escape for every other
 * control character, and every other character as itself. `Unquote` is an independent
 * decoder of the RFC's string grammar; the two are tied by a round-trip lemma.
 */
module JsonString {
  import opened Options

  const Backspace: char := 8 as char
  const FormFeed: char := 12 as char

  /** Lower-case hexadecimal digit of `n`. */
  function HexDigit(n: nat): char
    requires n < 16
  {
    if n < 10 then (48 + n) as char else (87 + n) as char
  }

  /** The value of a hexadecimal digit of either case, or None for any other character. */
  function HexDigitValue(d: char): (r: Option<nat>)
    ensures r.Some? ==> r.value < 16
  {
    if '0' <= d <= '9' then Some(d as int - 48)
    else if 'a' <= d <= 'f' then Some(d as int - 87)
    else if 'A' <= d <= 'F' then Some(d as int - 55)
    else None
  }

  /** The value of four hexadecimal digits, as after `\u`. */
  function FourHexValue(h: string): (r: Option<nat>)
    requires |h| == 4
    ensures r.Some? ==> r.value < 0x1_0000
  {
    match (HexDigitValue(h[0]), HexDigitValue(h[1]), HexDigitValue(h[2]), HexDigitValue(h[3]))
    case (Some(a), Some(b), Some(c), Some(d)) => Some(((a * 16 + b) * 16 + c) * 16 + d)
    case _ => None
  }

  predicate IsScalarValue(v: int)
  {
    0 <= v < 0xD800 || 0xE000 <= v < 0x11_0000
  }

  /** The character a two-character escape `\e` stands for. */
  function ShortEscape(e: char): Option<char>
  {
    if e == '"' then Some('"')
    else if e == '\\' then Some('\\')
    else if e == '/' then Some('/')
    else if e == 'b' then Some(Backspace)
    else if e == 'f' then Some(FormFeed)
    else if e == 'n' then Some('\n')
    else if e == 'r' then Some('\r')
    else if e == 't' then Some('\t')
    else None
  }

  /** The text `JSON.stringify` writes for one character inside the quotes. */
  function EscapeChar(c: char): string
  {
    if c == '"' then "\\\""
    else if c == '\\' then "\\\\"
    else if c == Backspace then "\\b"
    else if c == FormFeed then "\\f"
    else if c == '\n' then "\\n"
    else if c == '\r' then "\\r"
    else if c == '\t' then "\\t"
    else if c < ' ' then "\\u00" + [HexDigit(c as int / 16), HexDigit(c as int % 16)]
    else [c]
  }

  function Escape(s: string): string
  {
    if s == [] then [] else EscapeChar(s[0]) + Escape(s[1..])
  }

  /** The JSON string literal of `s`: it starts and ends with a quotation mark. */
  function Quote(s: string): (q: string)
    ensures |q| >= 2 && q[0] == '"' && q[|q| - 1] == '"'
  {
    "\"" + Escape(s) + "\""
  }

  function Cons(c: char, rest: Option<string>): Option<string>
  {
    match rest
    case None => None
    case Some(s) => Some([c] + s)
  }

  /**
   * Decodes the characters between the quotation marks of a JSON string literal.
   * None when they are not well formed: an unescaped quotation mark or control
   * character, an unknown escape, a truncated `\u` escape, or a `\u` escape naming
   * a surrogate (surrogate pairs are not decoded).
   */
  function Unescape(t: string): Option<string>
  {
    if t == [] then Some([])
    else if t[0] == '\\' then
      if |t| < 2 then None
      else if t[1] == 'u' then
        if |t| < 6 then None
        else match FourHexValue(t[2..6])
          case None => None
          case Some(v) => if IsScalarValue(v) then Cons(v as char, Unescape(t[6..])) else None
      else match ShortEscape(t[1])
        case None => None
        case Some(c) => Cons(c, Unescape(t[2..]))
    else if t[0] == '"' || t[0] < ' ' then None
    else Cons(t[0], Unescape(t[1..]))
  }

  /** The string a JSON string literal denotes, or None when `q` is not one. */
  function Unquote(q: string): Option<string>
  {
    if |q| >= 2 && q[0] == '"' && q[|q| - 1] == '"' then Unescape(q[1..|q| - 1]) else None
  }

  lemma HexDigitRoundTrip(n: nat)
    requires n < 16
    ensures HexDigitValue(HexDigit(n)) == Some(n)
  {
  }

  /** Decoding one escaped character and then the rest decodes the character first. */
  lemma UnescapeEscapeChar(c: char, t: string)
    ensures Unescape(EscapeChar(c) + t) == Cons(c, Unescape(t))
  {
    var e := EscapeChar(c);
    var u := e + t;
    assert u[|e|..] == t;
    if c < ' ' && c !in {Backspace, FormFeed, '\n', '\r', '\t'} {
      var hi, lo := c as int / 16, c as int % 16;
      HexDigitRoundTrip(hi);
      HexDigitRoundTrip(lo);
      assert u[2..6] == ['0', '0', HexDigit(hi), HexDigit(lo)];
      assert FourHexValue(u[2..6]) == Some(c as int);
    } else if |e| == 2 {
      assert u[2..] == t;
    } else {
      assert u[1..] == t;
    }
  }

  lemma {:induction false} UnescapeEscape(s: string)
    ensures Unescape(Escape(s)) == Some(s)
  {
    if s != [] {
      UnescapeEscapeChar(s[0], Escape(s[1..]));
      UnescapeEscape(s[1..]);
      assert [s[0]] + s[1..] == s;
    }
  }

  /** Every quoted string is a well-formed JSON string literal that denotes the original. */
  lemma UnquoteQuote(s: string)
    ensures Unquote(Quote(s)) == Some(s)
  {
    var q := Quote(s);
    assert q[1..|q| - 1] == Escape(s);
    UnescapeEscape(s);
  }

  /** Distinct strings have distinct literals. */
  lemma QuoteInjective(s: string, t: string)
    requires Quote(s) == Quote(t)
    ensures s == t
  {
    UnquoteQuote(s);
    UnquoteQuote(t);
  }
}
