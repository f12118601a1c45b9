/** The JSON text of the room list columns (amenities, images).

    The service writes these columns with `JSON.stringify` of an array of
    strings and reads them back with `JSON.parse`.  This module gives both
    directions for the shapes the columns hold: `Stringify` is the exact
    compact text `JSON.stringify` produces for an array of strings, and `Parse`
    reads a JSON text that is a single string or an array of strings (with the
    whitespace and escapes JSON allows), answering `None` where `JSON.parse`
    would throw.  `ParseStringify` proves that what is written reads back. */
module JsonList {
  import opened Js

  /** The JSON values this reader recognises. */
  datatype Json = JString(s: string) | JArray(items: seq<string>)

  /** A list column (amenities, images) as the driver hands it back: SQL NULL,
      the stored JSON text, or an array the driver has already decoded. */
  datatype Cell = Null | Text(text: string) | Decoded(items: seq<string>)

  /** `if (cell)`: NULL and the empty text are falsy; arrays are truthy. */
  predicate CellTruthy(c: Cell) {
    (c.Text? && c.text != "") || c.Decoded?
  }

  /** The text `JSON.parse` sees for a column value: the text itself, or for
      an already decoded array its `toString()`, the items joined by commas. */
  function CellText(c: Cell): string
    requires c != Null
  {
    match c
    case Text(t) => t
    case Decoded(items) => if items == [] then "" else Join(items, ',')
  }

  // ---------------------------------------------------------------------
  // Writing
  // ---------------------------------------------------------------------

  const HexDigits: string := "0123456789abcdef"

  /** Two lower-case hexadecimal digits, as in `\u001f`. */
  function Hex2(n: int): (r: string)
    requires 0 <= n < 256
    ensures |r| == 2
  {
    [HexDigits[n / 16], HexDigits[n % 16]]
  }

  /** The text `JSON.stringify` emits for one character inside a string literal. */
  function EscapeChar(c: char): (r: string)
    ensures |r| >= 1
    ensures |r| == 1 <==> r == [c]
  {
    if c == '"' then ['\\', '"']
    else if c == '\\' then ['\\', '\\']
    else if c as int == 0x08 then ['\\', 'b']
    else if c as int == 0x0C then ['\\', 'f']
    else if c == '\n' then ['\\', 'n']
    else if c == '\r' then ['\\', 'r']
    else if c == '\t' then ['\\', 't']
    else if c as int < 0x20 then ['\\', 'u', '0', '0'] + Hex2(c as int)
    else [c]
  }

  function Escape(s: string): string
  {
    if s == [] then [] else EscapeChar(s[0]) + Escape(s[1..])
  }

  /** `JSON.stringify(s)` for a string `s`. */
  function Quote(s: string): string
  {
    ['"'] + Escape(s) + ['"']
  }

  /** The comma separated string literals between the brackets. */
  function Items(xs: seq<string>): string
  {
    if xs == [] then []
    else if |xs| == 1 then Quote(xs[0])
    else Quote(xs[0]) + [','] + Items(xs[1..])
  }

  /** `JSON.stringify(xs)` for an array of strings `xs`. */
  function Stringify(xs: seq<string>): string
  {
    ['['] + Items(xs) + [']']
  }

  // ---------------------------------------------------------------------
  // Reading
  // ---------------------------------------------------------------------

  predicate IsWs(c: char) {
    c == ' ' || c == '\t' || c == '\n' || c == '\r'
  }

  /** Drops the leading JSON whitespace. */
  function SkipWs(t: string): (r: string)
    ensures |r| <= |t|
    ensures r == [] || !IsWs(r[0])
  {
    if t != [] && IsWs(t[0]) then SkipWs(t[1..]) else t
  }

  function HexValue(c: char): Option<int>
  {
    if '0' <= c <= '9' then Some(c as int - '0' as int)
    else if 'a' <= c <= 'f' then Some(c as int - 'a' as int + 10)
    else if 'A' <= c <= 'F' then Some(c as int - 'A' as int + 10)
    else None
  }

  /** The value of four hexadecimal digits. */
  function Hex4(t: string): (r: Option<int>)
    requires |t| == 4
    ensures r.Some? ==> 0 <= r.value < 0x10000
  {
    match (HexValue(t[0]), HexValue(t[1]), HexValue(t[2]), HexValue(t[3]))
    case (Some(a), Some(b), Some(c), Some(d)) =>
      if 0 <= a < 16 && 0 <= b < 16 && 0 <= c < 16 && 0 <= d < 16
      then Some(((a * 16 + b) * 16 + c) * 16 + d) else None
    case _ => None
  }

  /** Reads the escape sequence that follows a backslash: the character it
      stands for and the text after it.  A `\u` escape of a UTF-16 surrogate
      must be the first half of a surrogate pair. */
  function Unescape(t: string): (r: Option<(char, string)>)
    ensures r.Some? ==> |r.value.1| < |t|
  {
    if t == [] then None
    else if t[0] == '"' then Some(('"', t[1..]))
    else if t[0] == '\\' then Some(('\\', t[1..]))
    else if t[0] == '/' then Some(('/', t[1..]))
    else if t[0] == 'b' then Some((0x08 as char, t[1..]))
    else if t[0] == 'f' then Some((0x0C as char, t[1..]))
    else if t[0] == 'n' then Some(('\n', t[1..]))
    else if t[0] == 'r' then Some(('\r', t[1..]))
    else if t[0] == 't' then Some(('\t', t[1..]))
    else if t[0] == 'u' && |t| >= 5 then
      match Hex4(t[1..5])
      case None => None
      case Some(v) =>
        if v < 0xD800 || 0xE000 <= v then Some((v as char, t[5..]))
        else if v < 0xDC00 && |t| >= 11 && t[5] == '\\' && t[6] == 'u' then
          match Hex4(t[7..11])
          case None => None
          case Some(w) =>
            if 0xDC00 <= w < 0xE000
            then Some(((0x10000 + (v - 0xD800) * 0x400 + (w - 0xDC00)) as char, t[11..]))
            else None
        else None
    else None
  }

  /** Reads the characters of a string literal whose opening quote has been
      consumed: the decoded text and what follows the closing quote. */
  function StringBody(t: string): (r: Option<(string, string)>)
    ensures r.Some? ==> |r.value.1| < |t|
    decreases |t|
  {
    if t == [] then None
    else if t[0] == '"' then Some(([], t[1..]))
    else if t[0] == '\\' then
      match Unescape(t[1..])
      case None => None
      case Some((c, rest)) =>
        match StringBody(rest)
        case None => None
        case Some((s, after)) => Some(([c] + s, after))
    else if t[0] as int < 0x20 then None
    else
      match StringBody(t[1..])
      case None => None
      case Some((s, after)) => Some(([t[0]] + s, after))
  }

  /** Reads one or more comma separated string literals and the closing bracket. */
  function Elements(t: string): (r: Option<(seq<string>, string)>)
    ensures r.Some? ==> |r.value.1| < |t|
    decreases |t|
  {
    if t == [] || t[0] != '"' then None
    else
      match StringBody(t[1..])
      case None => None
      case Some((s, rest)) =>
        var u := SkipWs(rest);
        if u == [] then None
        else if u[0] == ']' then Some(([s], u[1..]))
        else if u[0] == ',' then
          match Elements(SkipWs(u[1..]))
          case None => None
          case Some((more, after)) => Some(([s] + more, after))
        else None
  }

  /** Reads an array of strings whose opening bracket has been consumed. */
  function ArrayBody(t: string): Option<(seq<string>, string)>
  {
    var u := SkipWs(t);
    if u != [] && u[0] == ']' then Some(([], u[1..])) else Elements(u)
  }

  /** `JSON.parse(text)` for a text holding a string or an array of strings;
      `None` where the text is not such a JSON value. */
  function Parse(text: string): Option<Json>
  {
    var t := SkipWs(text);
    if t == [] then None
    else if t[0] == '"' then
      match StringBody(t[1..])
      case None => None
      case Some((s, rest)) => if SkipWs(rest) == [] then Some(JString(s)) else None
    else if t[0] == '[' then
      match ArrayBody(t[1..])
      case None => None
      case Some((xs, rest)) => if SkipWs(rest) == [] then Some(JArray(xs)) else None
    else None
  }

  // ---------------------------------------------------------------------
  // Round trip
  // ---------------------------------------------------------------------

  lemma HexRoundTrip(n: int)
    requires 0 <= n < 0x20
    ensures Hex4(['0', '0'] + Hex2(n)) == Some(n)
  {
    var t := ['0', '0'] + Hex2(n);
    assert t[2] == HexDigits[n / 16] && t[3] == HexDigits[n % 16];
    assert HexValue(t[2]) == Some(n / 16);
    assert HexValue(t[3]) == Some(n % 16);
  }

  /** The escape sequence written for a character reads back as that character. */
  lemma UnescapeEscapeChar(c: char, rest: string)
    requires |EscapeChar(c)| > 1
    ensures EscapeChar(c)[0] == '\\'
    ensures Unescape(EscapeChar(c)[1..] + rest) == Some((c, rest))
  {
    var e := EscapeChar(c);
    if c != '"' && c != '\\' && c as int != 0x08 && c as int != 0x0C
       && c != '\n' && c != '\r' && c != '\t' {
      assert c as int < 0x20;
      var t := e[1..] + rest;
      assert t[1..5] == ['0', '0'] + Hex2(c as int);
      HexRoundTrip(c as int);
      assert t[5..] == rest;
    }
  }

  /** An escaped string followed by a closing quote reads back as the string. */
  lemma {:induction false} StringBodyOfEscape(s: string, rest: string)
    ensures StringBody(Escape(s) + ['"'] + rest) == Some((s, rest))
    decreases |s|
  {
    var t := Escape(s) + ['"'] + rest;
    if s == [] {
      assert t == ['"'] + rest;
    } else {
      var tail := Escape(s[1..]) + ['"'] + rest;
      assert t == EscapeChar(s[0]) + tail;
      StringBodyOfEscape(s[1..], rest);
      if |EscapeChar(s[0])| == 1 {
        assert t[1..] == tail;
      } else {
        UnescapeEscapeChar(s[0], tail);
        assert t[1..] == EscapeChar(s[0])[1..] + tail;
      }
      assert [s[0]] + s[1..] == s;
    }
  }

  lemma QuoteStartsWithQuote(s: string, rest: string)
    ensures (Quote(s) + rest)[0] == '"'
    ensures (Quote(s) + rest)[1..] == Escape(s) + ['"'] + rest
  {
  }

  lemma ItemsStartWithQuote(xs: seq<string>, rest: string)
    requires xs != []
    ensures (Items(xs) + rest)[0] == '"'
  {
    if |xs| == 1 {
      QuoteStartsWithQuote(xs[0], rest);
    } else {
      assert Items(xs) + rest == Quote(xs[0]) + ([','] + Items(xs[1..]) + rest);
      QuoteStartsWithQuote(xs[0], [','] + Items(xs[1..]) + rest);
    }
  }

  /** A last string literal followed by the closing bracket. */
  lemma ElementsLast(x: string, rest: string)
    ensures Elements(Quote(x) + [']'] + rest) == Some(([x], rest))
  {
    var t := Quote(x) + [']'] + rest;
    QuoteStartsWithQuote(x, [']'] + rest);
    assert t[1..] == Escape(x) + ['"'] + ([']'] + rest);
    StringBodyOfEscape(x, [']'] + rest);
    assert SkipWs([']'] + rest) == [']'] + rest;
  }

  /** A string literal followed by a comma and further elements. */
  lemma ElementsCons(x: string, more: string)
    requires more != [] && more[0] == '"'
    ensures Elements(Quote(x) + [','] + more)
         == match Elements(more)
            case None => None
            case Some((ys, after)) => Some(([x] + ys, after))
  {
    var t := Quote(x) + [','] + more;
    QuoteStartsWithQuote(x, [','] + more);
    assert t[1..] == Escape(x) + ['"'] + ([','] + more);
    StringBodyOfEscape(x, [','] + more);
    var u := [','] + more;
    assert SkipWs(u) == u;
    assert u[1..] == more;
    assert SkipWs(more) == more;
  }

  /** The items of a non-empty list, followed by the closing bracket, read back. */
  lemma {:induction false} ElementsOfItems(xs: seq<string>, rest: string)
    requires xs != []
    ensures Elements(Items(xs) + [']'] + rest) == Some((xs, rest))
    decreases |xs|
  {
    if |xs| == 1 {
      assert Items(xs) == Quote(xs[0]);
      ElementsLast(xs[0], rest);
      assert xs == [xs[0]];
    } else {
      var more := Items(xs[1..]) + [']'] + rest;
      assert Items(xs) == Quote(xs[0]) + [','] + Items(xs[1..]);
      assert Items(xs) + [']'] + rest == Quote(xs[0]) + [','] + more;
      ItemsStartWithQuote(xs[1..], [']'] + rest);
      assert more == Items(xs[1..]) + ([']'] + rest);
      ElementsOfItems(xs[1..], rest);
      var e := Elements(more);
      assert e == Some((xs[1..], rest));
      ElementsCons(xs[0], more);
      assert Elements(Quote(xs[0]) + [','] + more) == Some(([xs[0]] + xs[1..], rest));
      assert [xs[0]] + xs[1..] == xs;
    }
  }

  lemma ArrayBodyOfNoItems(body: string)
    requires |body| == 1 && body[0] == ']'
    ensures ArrayBody(body) == Some(([], []))
  {
    assert SkipWs(body) == body;
    assert body[1..] == [];
  }

  lemma ArrayBodyOfSomeItems(xs: seq<string>)
    requires xs != []
    ensures ArrayBody(Items(xs) + [']']) == Some((xs, []))
  {
    var body := Items(xs) + [']'];
    ItemsStartWithQuote(xs, [']']);
    assert SkipWs(body) == body;
    ElementsOfItems(xs, []);
    assert body == Items(xs) + [']'] + [];
  }

  lemma ArrayBodyOfItems(xs: seq<string>)
    ensures ArrayBody(Items(xs) + [']']) == Some((xs, []))
  {
    if xs == [] {
      ArrayBodyOfNoItems(Items(xs) + [']']);
    } else {
      ArrayBodyOfSomeItems(xs);
    }
  }

  /** What `Stringify` writes, `Parse` reads back unchanged. */
  lemma ParseStringify(xs: seq<string>)
    ensures Parse(Stringify(xs)) == Some(JArray(xs))
  {
    var t := Stringify(xs);
    assert t[0] == '[';
    assert SkipWs(t) == t;
    assert t[1..] == Items(xs) + [']'];
    ArrayBodyOfItems(xs);
    assert SkipWs([]) == [];
  }

  /** A string written with `JSON.stringify` (a JSON string literal) reads back
      as that string, not as an array. */
  lemma ParseQuote(s: string)
    ensures Parse(Quote(s)) == Some(JString(s))
  {
    var t := Quote(s);
    assert SkipWs(t) == t;
    StringBodyOfEscape(s, []);
    assert t[1..] == Escape(s) + ['"'] + [];
  }
}
