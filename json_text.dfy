/** `json.dumps` with its defaults, as the service uses it to turn the extracted purchase map into
    the text it stores and sends: separators `", "` and `": "`, and `ensure_ascii`, so that every
    character outside `' '..'~'` is written as a `\uXXXX` escape (a surrogate pair above U+FFFF). */
module JsonText {
  import opened PyStr
  import opened Helpers

  /** Text that `ensure_ascii` output may hold as is. */
  predicate AsciiText(s: string) {
    forall i :: 0 <= i < |s| ==> Printable(s[i])
  }

  function HexDigit(d: nat): (c: char)
    requires d < 16
    ensures Printable(c)
  {
    "0123456789abcdef"[d]
  }

  /** Four lower-case hex digits of `n`. */
  function Hex4(n: nat): (r: string)
    requires n < 0x10000
    ensures |r| == 4 && AsciiText(r)
  {
    [HexDigit(n / 0x1000), HexDigit(n / 0x100 % 16), HexDigit(n / 16 % 16), HexDigit(n % 16)]
  }

  function Digits(n: nat): (r: string)
    ensures |r| >= 1 && AsciiText(r)
  {
    if n < 10 then [HexDigit(n)] else Digits(n / 10) + [HexDigit(n % 10)]
  }

  /** `repr` of an int. */
  function Decimal(i: int): (r: string)
    ensures AsciiText(r)
  {
    if i < 0 then "-" + Digits(-i) else Digits(i)
  }

  /** How `ensure_ascii` writes one character of a string. */
  function EscapeChar(c: char): (r: string)
    ensures AsciiText(r)
    ensures Printable(c) && c != '"' && c != '\\' ==> r == [c]
  {
    if c == '"' then "\\\""
    else if c == '\\' then "\\\\"
    else if c == '\n' then "\\n"
    else if c == '\r' then "\\r"
    else if c == '\t' then "\\t"
    else if c == '\U{8}' then "\\b"
    else if c == '\U{C}' then "\\f"
    else if Printable(c) then [c]
    else if (c as int) < 0x10000 then "\\u" + Hex4(c as int)
    else
      var n := c as int - 0x10000;
      "\\u" + Hex4(0xD800 + n / 0x400) + "\\u" + Hex4(0xDC00 + n % 0x400)
  }

  /** The escaped characters of `s`, one after the other. */
  function EscapeAll(s: string): (r: string)
    ensures AsciiText(r)
  {
    if s == [] then [] else EscapeChar(s[0]) + EscapeAll(s[1..])
  }

  /** A JSON string literal. */
  function Quote(s: string): (r: string)
    ensures AsciiText(r)
  {
    "\"" + EscapeAll(s) + "\""
  }

  /** `json.dumps(j)`. */
  function Dumps(j: Json): string
    decreases j
  {
    match j
    case JNull => "null"
    case JBool(b) => if b then "true" else "false"
    case JInt(i) => Decimal(i)
    case JStr(s) => Quote(s)
    case JList(items) =>
      "[" + JoinWith(", ", seq(|items|, i requires 0 <= i < |items| => Dumps(items[i]))) + "]"
    case JDict(fields) =>
      "{" + JoinWith(", ", seq(|fields|, i requires 0 <= i < |fields| =>
        Quote(fields[i].0) + ": " + Dumps(fields[i].1))) + "}"
  }

  lemma AsciiConcat(a: string, b: string)
    requires AsciiText(a) && AsciiText(b)
    ensures AsciiText(a + b)
  {
    forall i | 0 <= i < |a + b| ensures Printable((a + b)[i]) {
      if i >= |a| {
        assert (a + b)[i] == b[i - |a|];
      }
    }
  }

  lemma {:induction false} AsciiJoin(sep: string, parts: seq<string>)
    requires AsciiText(sep) && forall k :: 0 <= k < |parts| ==> AsciiText(parts[k])
    ensures AsciiText(JoinWith(sep, parts))
    decreases |parts|
  {
    if |parts| > 1 {
      AsciiJoin(sep, parts[1..]);
      AsciiConcat(parts[0], sep);
      AsciiConcat(parts[0] + sep, JoinWith(sep, parts[1..]));
    }
  }

  /** `json.dumps` output is printable ASCII throughout: control characters, quotes,
      backslashes and every non-ASCII character come out escaped. */
  lemma {:induction false} DumpsAscii(j: Json)
    ensures AsciiText(Dumps(j))
    decreases j
  {
    match j
    case JNull =>
    case JBool(b) =>
    case JInt(i) =>
    case JStr(s) =>
    case JList(items) =>
      var parts := seq(|items|, i requires 0 <= i < |items| => Dumps(items[i]));
      forall k | 0 <= k < |parts| ensures AsciiText(parts[k]) {
        DumpsAscii(items[k]);
      }
      AsciiJoin(", ", parts);
      AsciiConcat("[", JoinWith(", ", parts));
      AsciiConcat("[" + JoinWith(", ", parts), "]");
    case JDict(fields) =>
      var parts := seq(|fields|, i requires 0 <= i < |fields| => Quote(fields[i].0) + ": " + Dumps(fields[i].1));
      forall k | 0 <= k < |parts| ensures AsciiText(parts[k]) {
        DumpsAscii(fields[k].1);
        AsciiConcat(Quote(fields[k].0), ": ");
        AsciiConcat(Quote(fields[k].0) + ": ", Dumps(fields[k].1));
      }
      AsciiJoin(", ", parts);
      AsciiConcat("{", JoinWith(", ", parts));
      AsciiConcat("{" + JoinWith(", ", parts), "}");
  }
}
