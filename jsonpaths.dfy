/**
 * How the history table stores a record's file paths: the text
 * `json.dumps(paths, ensure_ascii=False)` writes for a list of strings, and
 * the reading of such text back into a list (`json.loads`).
 */
module JsonPaths {
  import opened Text
  import opened Wrappers

  // ---------------------------------------------------------------------
  // Writing
  // ---------------------------------------------------------------------

  /** A lower-case hexadecimal digit, as `format(n, "04x")` writes it. */
  function HexDigit(d: nat): (c: char)
    requires d < 16
  {
    if d < 10 then ('0' as int + d) as char else ('a' as int + d - 10) as char
  }

  /** How one character of a string is written (`ensure_ascii=False`). */
  function EscapeChar(c: char): (r: string)
    ensures |r| >= 1
  {
    if c == '"' then "\\\""
    else if c == '\\' then "\\\\"
    else if c == '\n' then "\\n"
    else if c == '\r' then "\\r"
    else if c == '\t' then "\\t"
    else if c == '\U{0008}' then "\\b"
    else if c == '\U{000C}' then "\\f"
    else if c < ' ' then "\\u00" + [HexDigit(c as int / 16), HexDigit(c as int % 16)]
    else [c]
  }

  function EscapeBody(s: string): string
  {
    if s == [] then [] else EscapeChar(s[0]) + EscapeBody(s[1..])
  }

  /** A string value: quotes around the escaped characters. */
  function Quote(s: string): string
  {
    "\"" + EscapeBody(s) + "\""
  }

  function QuoteAll(xs: seq<string>): (r: seq<string>)
    ensures |r| == |xs|
    ensures forall i :: 0 <= i < |xs| ==> r[i] == Quote(xs[i])
  {
    if xs == [] then [] else [Quote(xs[0])] + QuoteAll(xs[1..])
  }

  /** `json.dumps(xs, ensure_ascii=False)` for a list of strings. */
  function Encode(xs: seq<string>): string
  {
    "[" + JoinWith(QuoteAll(xs), ", ") + "]"
  }

  // ---------------------------------------------------------------------
  // Reading
  // ---------------------------------------------------------------------

  predicate IsJsonSpace(c: char) {
    c == ' ' || c == '\t' || c == '\n' || c == '\r'
  }

  function SkipSpace(t: string): (r: string)
    ensures |r| <= |t|
    ensures r != [] ==> !IsJsonSpace(r[0])
  {
    if t != [] && IsJsonSpace(t[0]) then SkipSpace(t[1..]) else t
  }

  function HexValue(c: char): Option<nat>
  {
    if '0' <= c <= '9' then Some(c as int - '0' as int)
    else if 'a' <= c <= 'f' then Some(c as int - 'a' as int + 10)
    else if 'A' <= c <= 'F' then Some(c as int - 'A' as int + 10)
    else None
  }

  /** The code point named by four hexadecimal digits, if they are digits. */
  function Hex4(t: string): (r: Option<nat>)
    requires |t| == 4
    ensures r.Some? ==> r.value < 0x1_0000
  {
    match (HexValue(t[0]), HexValue(t[1]), HexValue(t[2]), HexValue(t[3]))
    case (Some(a), Some(b), Some(c), Some(d)) =>
      if a < 16 && b < 16 && c < 16 && d < 16 then Some(((a * 16 + b) * 16 + c) * 16 + d) else None
    case _ => None
  }

  /** The character a two-character escape `\x` stands for. */
  function SimpleEscape(c: char): Option<char>
  {
    if c == '"' then Some('"')
    else if c == '\\' then Some('\\')
    else if c == '/' then Some('/')
    else if c == 'b' then Some('\U{0008}')
    else if c == 'f' then Some('\U{000C}')
    else if c == 'n' then Some('\n')
    else if c == 'r' then Some('\r')
    else if c == 't' then Some('\t')
    else None
  }

  /**
   * The characters of a string value up to its closing quote, and what
   * follows the quote.  Control characters must be escaped; an escaped
   * surrogate is refused, since it is not a character on its own.
   */
  function ParseBody(t: string): (r: Option<(string, string)>)
    ensures r.Some? ==> |r.value.1| < |t|
    decreases |t|
  {
    if t == [] then None
    else if t[0] == '"' then Some(([], t[1..]))
    else if t[0] == '\\' then
      if |t| < 2 then None
      else if t[1] == 'u' then
        if |t| < 6 then None
        else match Hex4(t[2..6])
          case None => None
          case Some(n) =>
            if 0xD800 <= n < 0xE000 then None
            else match ParseBody(t[6..])
              case None => None
              case Some(p) => Some(([n as char] + p.0, p.1))
      else match SimpleEscape(t[1])
        case None => None
        case Some(c) =>
          match ParseBody(t[2..])
          case None => None
          case Some(p) => Some(([c] + p.0, p.1))
    else if t[0] < ' ' then None
    else match ParseBody(t[1..])
      case None => None
      case Some(p) => Some(([t[0]] + p.0, p.1))
  }

  /** A string value at the start of `t`, and what follows it. */
  function ParseString(t: string): (r: Option<(string, string)>)
    ensures r.Some? ==> |r.value.1| < |t|
  {
    if t != [] && t[0] == '"' then ParseBody(t[1..]) else None
  }

  /** The elements of an array after its `[` or a `,`, up to and past its `]`. */
  function ParseElements(t: string): (r: Option<(seq<string>, string)>)
    ensures r.Some? ==> |r.value.1| < |t|
    decreases |t|
  {
    match ParseString(SkipSpace(t))
    case None => None
    case Some(p) =>
      var after := SkipSpace(p.1);
      if after != [] && after[0] == ',' then
        match ParseElements(after[1..])
        case None => None
        case Some(q) => Some(([p.0] + q.0, q.1))
      else if after != [] && after[0] == ']' then Some(([p.0], after[1..]))
      else None
  }

  /** `json.loads(t)` when `t` holds an array of strings; anything else is refused. */
  function Decode(t: string): Option<seq<string>>
  {
    var s := SkipSpace(t);
    if s == [] || s[0] != '[' then None
    else
      var inner := SkipSpace(s[1..]);
      if inner != [] && inner[0] == ']' then
        (if SkipSpace(inner[1..]) == [] then Some([]) else None)
      else match ParseElements(inner)
        case None => None
        case Some(p) => if SkipSpace(p.1) == [] then Some(p.0) else None
  }

  // ---------------------------------------------------------------------
  // The round trip
  // ---------------------------------------------------------------------

  lemma HexDigitValue(d: nat)
    requires d < 16
    ensures HexValue(HexDigit(d)) == Some(d)
  {
  }

  /** One written character reads back as itself. */
  lemma EscapeCharReads(c: char, tail: string)
    ensures ParseBody(EscapeChar(c) + tail) ==
      match ParseBody(tail)
      case None => None
      case Some(p) => Some(([c] + p.0, p.1))
  {
    var t := EscapeChar(c) + tail;
    if c < ' ' && c != '\n' && c != '\r' && c != '\t' && c != '\U{0008}' && c != '\U{000C}' {
      var hi := c as int / 16;
      var lo := c as int % 16;
      assert EscapeChar(c) == "\\u00" + [HexDigit(hi), HexDigit(lo)];
      assert t[0] == '\\' && t[1] == 'u';
      assert t[2..6] == ['0', '0', HexDigit(hi), HexDigit(lo)];
      HexDigitValue(hi);
      HexDigitValue(lo);
      assert Hex4(t[2..6]) == Some(c as int);
      assert t[6..] == tail;
      assert (c as int) as char == c;
    } else if c == '"' || c == '\\' || c == '\n' || c == '\r' || c == '\t' || c == '\U{0008}' || c == '\U{000C}' {
      assert |EscapeChar(c)| == 2 && t[0] == '\\';
      assert t[2..] == tail;
    } else {
      assert EscapeChar(c) == [c];
      assert t[1..] == tail;
    }
  }

  /** The written characters of a string, then its closing quote, read back as the string. */
  lemma {:induction false} BodyReads(s: string, rest: string)
    ensures ParseBody(EscapeBody(s) + "\"" + rest) == Some((s, rest))
  {
    if s == [] {
      assert EscapeBody(s) + "\"" + rest == "\"" + rest;
      assert ("\"" + rest)[1..] == rest;
    } else {
      var tail := EscapeBody(s[1..]) + "\"" + rest;
      assert EscapeBody(s) + "\"" + rest == EscapeChar(s[0]) + tail;
      BodyReads(s[1..], rest);
      EscapeCharReads(s[0], tail);
      assert [s[0]] + s[1..] == s;
    }
  }

  lemma QuoteReads(s: string, rest: string)
    ensures ParseString(Quote(s) + rest) == Some((s, rest))
  {
    var t := Quote(s) + rest;
    assert t == "\"" + (EscapeBody(s) + "\"" + rest);
    assert t[1..] == EscapeBody(s) + "\"" + rest;
    BodyReads(s, rest);
  }

  /** Text that starts with a string value has no leading space to skip. */
  lemma NoSpaceBeforeQuote(x: string, y: string)
    ensures SkipSpace(Quote(x) + y) == Quote(x) + y
  {
    assert (Quote(x) + y)[0] == '"';
  }

  /** An element followed by `]` ends the array. */
  lemma LastElement(t: string, x: string, rest: string)
    requires SkipSpace(t) == t && ParseString(t) == Some((x, "]" + rest))
    ensures ParseElements(t) == Some(([x], rest))
  {
    assert SkipSpace("]" + rest) == "]" + rest;
    assert ("]" + rest)[1..] == rest;
  }

  /** An element followed by `, ` continues with the next element. */
  lemma NextElement(t: string, x: string, more: string)
    requires SkipSpace(t) == t && ParseString(t) == Some((x, ", " + more))
    requires SkipSpace(more) == more
    ensures ParseElements(t) ==
      match ParseElements(more)
      case None => None
      case Some(q) => Some(([x] + q.0, q.1))
  {
    var after := SkipSpace(", " + more);
    assert after == ", " + more;
    assert after[0] == ',';
    assert after[1..] == " " + more;
    SpaceBeforeElements(more);
  }

  lemma SpaceBeforeElements(t: string)
    ensures ParseElements(" " + t) == ParseElements(SkipSpace(t))
  {
    assert (" " + t)[1..] == t;
    assert SkipSpace(" " + t) == SkipSpace(t);
    SkipSpaceTwice(t);
  }

  lemma SkipSpaceTwice(t: string)
    ensures SkipSpace(SkipSpace(t)) == SkipSpace(t)
  {
  }

  /** The written elements of a non-empty list, then `]`, read back as the list. */
  lemma {:induction false} ElementsRead(xs: seq<string>, rest: string)
    requires |xs| >= 1
    ensures ParseElements(JoinWith(QuoteAll(xs), ", ") + "]" + rest) == Some((xs, rest))
  {
    if |xs| == 1 {
      assert JoinWith(QuoteAll(xs), ", ") == Quote(xs[0]);
      LastElementRead(xs[0], rest);
      assert xs == [xs[0]];
    } else {
      FirstElementRead(xs, rest);
      ElementsRead(xs[1..], rest);
      assert [xs[0]] + xs[1..] == xs;
    }
  }

  lemma LastElementRead(x: string, rest: string)
    ensures ParseElements(Quote(x) + "]" + rest) == Some(([x], rest))
  {
    var t := Quote(x) + "]" + rest;
    assert t == Quote(x) + ("]" + rest);
    NoSpaceBeforeQuote(x, "]" + rest);
    QuoteReads(x, "]" + rest);
    LastElement(t, x, rest);
  }

  /** The first written element, then `, `, is read and the rest of the list follows. */
  lemma FirstElementRead(xs: seq<string>, rest: string)
    requires |xs| >= 2
    ensures ParseElements(JoinWith(QuoteAll(xs), ", ") + "]" + rest) ==
      match ParseElements(JoinWith(QuoteAll(xs[1..]), ", ") + "]" + rest)
      case None => None
      case Some(q) => Some(([xs[0]] + q.0, q.1))
  {
    JoinQuotedCons(xs);
    MoreStartsWithQuote(xs[1..], "]" + rest);
    ElementThenMore(xs[0], JoinWith(QuoteAll(xs[1..]), ", "), rest);
  }

  lemma JoinQuotedCons(xs: seq<string>)
    requires |xs| >= 2
    ensures JoinWith(QuoteAll(xs), ", ") == Quote(xs[0]) + ", " + JoinWith(QuoteAll(xs[1..]), ", ")
  {
    assert QuoteAll(xs)[1..] == QuoteAll(xs[1..]);
  }

  /** An element, `, ` and text that starts with the next element. */
  lemma ElementThenMore(x: string, tail: string, rest: string)
    requires SkipSpace(tail + ("]" + rest)) == tail + ("]" + rest)
    ensures ParseElements(Quote(x) + ", " + tail + "]" + rest) ==
      match ParseElements(tail + "]" + rest)
      case None => None
      case Some(q) => Some(([x] + q.0, q.1))
  {
    var more := tail + "]" + rest;
    assert tail + ("]" + rest) == more;
    assert Quote(x) + ", " + tail + "]" + rest == Quote(x) + (", " + more);
    NoSpaceBeforeQuote(x, ", " + more);
    QuoteReads(x, ", " + more);
    NextElement(Quote(x) + (", " + more), x, more);
  }

  lemma MoreStartsWithQuote(xs: seq<string>, y: string)
    requires |xs| >= 1
    ensures SkipSpace(JoinWith(QuoteAll(xs), ", ") + y) == JoinWith(QuoteAll(xs), ", ") + y
  {
    var j := JoinWith(QuoteAll(xs), ", ");
    if |xs| == 1 {
      assert j == Quote(xs[0]);
    } else {
      assert j == Quote(xs[0]) + (", " + JoinWith(QuoteAll(xs)[1..], ", "));
    }
    assert (j + y)[0] == Quote(xs[0])[0] == '"';
  }

  /** What `json.dumps` writes for a list of strings, `json.loads` reads back unchanged. */
  lemma DecodeEncode(xs: seq<string>)
    ensures Decode(Encode(xs)) == Some(xs)
  {
    var t := Encode(xs);
    assert t[0] == '[';
    assert SkipSpace(t) == t;
    if xs == [] {
      assert t == "[]";
      assert t[1..] == "]";
      assert SkipSpace(t[1..]) == "]";
      assert t[1..][1..] == [];
    } else {
      var body := JoinWith(QuoteAll(xs), ", ") + "]";
      assert t == "[" + body;
      assert t[1..] == body;
      MoreStartsWithQuote(xs, "]");
      ElementsRead(xs, "");
      assert body + "" == body;
      assert body[0] == '"';
    }
  }

  // ---------------------------------------------------------------------
  // The stored column
  // ---------------------------------------------------------------------

  /** `json.dumps(file_paths or [])` (database.py:65). */
  function StorePaths(paths: Option<seq<string>>): string
  {
    Encode(if paths.Some? then paths.value else [])
  }

  /** `json.loads(v) if v else []` (database.py:192, 233); `None` when the text is not a list of strings. */
  function ReadPaths(stored: Option<string>): Option<seq<string>>
  {
    if stored.None? || stored.value == "" then Some([]) else Decode(stored.value)
  }

  /** Paths stored by a record read back unchanged; missing paths read back as an empty list. */
  lemma StoredPathsRoundTrip(paths: Option<seq<string>>)
    ensures ReadPaths(Some(StorePaths(paths))) == Some(if paths.Some? then paths.value else [])
  {
    DecodeEncode(if paths.Some? then paths.value else []);
  }

  /** An empty or missing column reads as an empty list. */
  lemma EmptyColumnReadsEmpty()
    ensures ReadPaths(None) == Some([]) && ReadPaths(Some("")) == Some([])
  {
  }
}
