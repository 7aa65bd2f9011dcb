/** The JSON text of a list of strings as `StringList` stores it:
    `json.dumps(list)` with its defaults (ASCII-only output, `", "` between
    items, short escapes for quote, backslash and five control characters,
    `\uXXXX` in lower-case hex for every other character outside space..`~`,
    and a surrogate pair above U+FFFF), and the part of `json.loads` that reads
    such a text back (any JSON whitespace, `null`, a list of strings with
    every JSON escape). */
module JsonText {
  import opened Results

  predicate IsAscii(s: string)
  {
    forall i :: 0 <= i < |s| ==> s[i] as int < 128
  }

  /** Characters `json.dumps` writes unescaped: printable ASCII but `"` and `\`. */
  predicate IsPlain(c: char)
  {
    ' ' <= c <= '~' && c != '\"' && c != '\\'
  }

  /** The characters with a two-character escape in `json.dumps`. */
  function ShortEscapeLetter(c: char): Option<char>
  {
    if c == '\"' then Some('\"')
    else if c == '\\' then Some('\\')
    else if c == '\n' then Some('n')
    else if c == '\r' then Some('r')
    else if c == '\t' then Some('t')
    else if c as int == 8 then Some('b')
    else if c as int == 12 then Some('f')
    else None
  }

  /** What a two-character escape `\e` stands for in `json.loads` (including
      `\/`, which `json.dumps` never writes). */
  function ShortEscapeChar(e: char): Option<char>
  {
    if e == '\"' then Some('\"')
    else if e == '\\' then Some('\\')
    else if e == '/' then Some('/')
    else if e == 'n' then Some('\n')
    else if e == 'r' then Some('\r')
    else if e == 't' then Some('\t')
    else if e == 'b' then Some(8 as char)
    else if e == 'f' then Some(12 as char)
    else None
  }

  lemma {:induction false} ShortEscapeInverse(c: char)
    requires ShortEscapeLetter(c).Some?
    ensures ShortEscapeChar(ShortEscapeLetter(c).value) == Some(c)
  {
  }

  function HexValue(c: char): (r: Option<nat>)
    ensures r.Some? ==> r.value < 16
  {
    if '0' <= c <= '9' then Some(c as int - '0' as int)
    else if 'a' <= c <= 'f' then Some(c as int - 'a' as int + 10)
    else if 'A' <= c <= 'F' then Some(c as int - 'A' as int + 10)
    else None
  }

  /** Lower-case hex digit, as Python's `{:04x}` format writes it. */
  function HexDigit(n: nat): (c: char)
    requires n < 16
    ensures HexValue(c) == Some(n) && c as int < 128
  {
    if n < 10 then (n + '0' as int) as char else (n - 10 + 'a' as int) as char
  }

  /** Four lower-case hex digits, most significant first, as Python's
      `{:04x}` format writes them. */
  function Hex4(n: nat): (r: string)
    requires n < 0x10000
    ensures |r| == 4 && IsAscii(r)
  {
    var q1 := n / 16;
    var q2 := q1 / 16;
    [HexDigit(q2 / 16), HexDigit(q2 % 16), HexDigit(q1 % 16), HexDigit(n % 16)]
  }

  function ParseHex4(s: string): (r: Option<nat>)
    requires |s| == 4
    ensures r.Some? ==> r.value < 0x10000
  {
    if HexValue(s[0]).None? || HexValue(s[1]).None? || HexValue(s[2]).None? || HexValue(s[3]).None? then None
    else
      var d3, d2, d1, d0 := HexValue(s[0]).value, HexValue(s[1]).value, HexValue(s[2]).value, HexValue(s[3]).value;
      Some(((d3 * 16 + d2) * 16 + d1) * 16 + d0)
  }

  lemma {:induction false} ParseHex4Hex4(n: nat)
    requires n < 0x10000
    ensures ParseHex4(Hex4(n)) == Some(n)
  {
    var q1 := n / 16;
    var q2 := q1 / 16;
    var h := Hex4(n);
    assert HexValue(h[0]) == Some(q2 / 16);
    assert HexValue(h[1]) == Some(q2 % 16);
    assert HexValue(h[2]) == Some(q1 % 16);
    assert HexValue(h[3]) == Some(n % 16);
    assert n == q1 * 16 + n % 16;
    assert q1 == q2 * 16 + q1 % 16;
    assert q2 == (q2 / 16) * 16 + q2 % 16;
  }

  predicate IsHighSurrogate(n: int)
  {
    0xD800 <= n < 0xDC00
  }

  predicate IsLowSurrogate(n: int)
  {
    0xDC00 <= n < 0xE000
  }

  /** The two halves `json.dumps` writes for a code point above the basic
      plane. */
  function HighSurrogate(n: int): (r: int)
    requires 0x10000 <= n < 0x110000
    ensures IsHighSurrogate(r)
  {
    0xD800 + (n - 0x10000) / 0x400
  }

  function LowSurrogate(n: int): (r: int)
    requires 0x10000 <= n < 0x110000
    ensures IsLowSurrogate(r)
  {
    0xDC00 + (n - 0x10000) % 0x400
  }

  /** `json.dumps` escaping of one character. */
  function EscapeChar(c: char): (r: string)
    ensures |r| > 0 && r[0] != '\"' && IsAscii(r)
  {
    if IsPlain(c) then [c]
    else if ShortEscapeLetter(c).Some? then ['\\', ShortEscapeLetter(c).value]
    else if c as int < 0x10000 then "\\u" + Hex4(c as int)
    else "\\u" + Hex4(HighSurrogate(c as int)) + "\\u" + Hex4(LowSurrogate(c as int))
  }

  function EscapeString(s: string): (r: string)
    ensures IsAscii(r)
  {
    if |s| == 0 then "" else EscapeChar(s[0]) + EscapeString(s[1..])
  }

  function Quote(s: string): (r: string)
    ensures IsAscii(r)
  {
    "\"" + EscapeString(s) + "\""
  }

  function DumpsTail(ss: seq<string>): (r: string)
    ensures IsAscii(r)
  {
    if |ss| == 0 then "" else ", " + Quote(ss[0]) + DumpsTail(ss[1..])
  }

  /** `json.dumps(ss)` for a list of strings. The text is pure ASCII, so its
      UTF-8 bytes are its character codes, one per character. */
  function Dumps(ss: seq<string>): (r: string)
    ensures IsAscii(r)
    ensures |ss| == 0 ==> r == "[]"
    ensures |r| >= 2 && r[0] == '[' && r[|r| - 1] == ']'
  {
    if |ss| == 0 then "[]" else "[" + Quote(ss[0]) + DumpsTail(ss[1..]) + "]"
  }

  /** `json.dumps(None)`. */
  const DumpsNull := "null"

  predicate IsJsonSpace(c: char)
  {
    c == ' ' || c == '\t' || c == '\n' || c == '\r'
  }

  function SkipSpace(s: string): (r: string)
    ensures |r| <= |s| && r == s[|s| - |r|..]
    ensures |r| > 0 ==> !IsJsonSpace(r[0])
  {
    if |s| > 0 && IsJsonSpace(s[0]) then SkipSpace(s[1..]) else s
  }

  /** One character of a string body other than the closing quote: a raw
      character (control characters are refused) or an escape; a `\u` escape
      of a high surrogate must be followed by one of a low surrogate. */
  function ParseUnit(s: string): (r: Option<(char, string)>)
    ensures r.Some? ==> |r.value.1| < |s|
  {
    if |s| == 0 || s[0] == '\"' then None
    else if s[0] != '\\' then
      if s[0] as int < 0x20 then None else Some((s[0], s[1..]))
    else if |s| < 2 then None
    else if ShortEscapeChar(s[1]).Some? then Some((ShortEscapeChar(s[1]).value, s[2..]))
    else if s[1] != 'u' || |s| < 6 then None
    else
      match ParseHex4(s[2..6])
      case None => None
      case Some(hi) =>
        if IsLowSurrogate(hi) then None
        else if !IsHighSurrogate(hi) then Some((hi as char, s[6..]))
        else if |s| < 12 || s[6] != '\\' || s[7] != 'u' then None
        else
          match ParseHex4(s[8..12])
          case None => None
          case Some(lo) =>
            if !IsLowSurrogate(lo) then None
            else Some(((0x10000 + (hi - 0xD800) * 0x400 + (lo - 0xDC00)) as char, s[12..]))
  }

  /** The characters of a JSON string after its opening quote, and the text
      after its closing quote. */
  function ParseStringBody(s: string): (r: Option<(string, string)>)
    ensures r.Some? ==> |r.value.1| < |s|
    decreases |s|
  {
    if |s| == 0 then None
    else if s[0] == '\"' then Some(("", s[1..]))
    else
      match ParseUnit(s)
      case None => None
      case Some((c, rest)) =>
        match ParseStringBody(rest)
        case None => None
        case Some((body, after)) => Some(([c] + body, after))
  }

  /** Items of a non-empty list, from the first item's opening quote, and the
      text after the closing bracket. */
  function ParseItems(s: string): (r: Option<(seq<string>, string)>)
    ensures r.Some? ==> |r.value.1| < |s|
    decreases |s|
  {
    if |s| == 0 || s[0] != '\"' then None
    else
      match ParseStringBody(s[1..])
      case None => None
      case Some((item, rest)) => ItemsAfter(item, rest)
  }

  /** What follows an item: `]` ends the list, `,` introduces the next item. */
  function ItemsAfter(item: string, rest: string): (r: Option<(seq<string>, string)>)
    ensures r.Some? ==> |r.value.1| < |rest|
    decreases |rest|
  {
    var t := SkipSpace(rest);
    if |t| > 0 && t[0] == ']' then Some(([item], t[1..]))
    else if |t| > 0 && t[0] == ',' then
      match ParseItems(SkipSpace(t[1..]))
      case None => None
      case Some((items, after)) => Some(([item] + items, after))
    else None
  }

  /** The values of a JSON text that a `StringList` can be built from. */
  datatype Decoded = NullValue | StringItems(items: seq<string>)

  /** `json.loads` restricted to the values a `StringList` accepts: `null`
      (an unset list) or a list of strings. Everything else is `None`. */
  function Loads(s: string): Option<Decoded>
  {
    var t := SkipSpace(s);
    if |t| >= 4 && t[..4] == "null" then
      if SkipSpace(t[4..]) == "" then Some(NullValue) else None
    else if |t| == 0 || t[0] != '[' then None
    else
      var u := SkipSpace(t[1..]);
      if |u| > 0 && u[0] == ']' then
        if SkipSpace(u[1..]) == "" then Some(StringItems([])) else None
      else
        match ParseItems(u)
        case None => None
        case Some((items, after)) => if SkipSpace(after) == "" then Some(StringItems(items)) else None
  }

  lemma {:induction false} ParseUnitPlain(c: char, tail: string)
    requires IsPlain(c)
    ensures ParseUnit(EscapeChar(c) + tail) == Some((c, tail))
  {
    var s := EscapeChar(c) + tail;
    assert s[0] == c && s[1..] == tail;
  }

  lemma {:induction false} ParseUnitShort(c: char, tail: string)
    requires !IsPlain(c) && ShortEscapeLetter(c).Some?
    ensures ParseUnit(EscapeChar(c) + tail) == Some((c, tail))
  {
    var s := EscapeChar(c) + tail;
    ShortEscapeInverse(c);
    assert s[0] == '\\' && s[1] == ShortEscapeLetter(c).value;
    assert s[2..] == tail;
  }

  lemma {:induction false} ParseUnitBasicPlane(c: char, tail: string)
    requires !IsPlain(c) && ShortEscapeLetter(c).None? && c as int < 0x10000
    ensures ParseUnit(EscapeChar(c) + tail) == Some((c, tail))
  {
    var n := c as int;
    var s := EscapeChar(c) + tail;
    assert s == "\\u" + Hex4(n) + tail;
    ParseHex4Hex4(n);
    assert s[0] == '\\' && s[1] == 'u';
    assert ShortEscapeChar(s[1]).None?;
    assert s[2..6] == Hex4(n);
    assert s[6..] == tail;
  }

  /** A surrogate pair of `\u` escapes reads back as the character it
      encodes. */
  lemma {:induction false} ParseUnitSurrogatePair(c: char, hi: int, lo: int, tail: string)
    requires IsHighSurrogate(hi) && IsLowSurrogate(lo)
    requires c as int == 0x10000 + (hi - 0xD800) * 0x400 + (lo - 0xDC00)
    ensures ParseUnit("\\u" + Hex4(hi) + "\\u" + Hex4(lo) + tail) == Some((c, tail))
  {
    var s := "\\u" + Hex4(hi) + "\\u" + Hex4(lo) + tail;
    ParseHex4Hex4(hi);
    ParseHex4Hex4(lo);
    assert s[0] == '\\' && s[1] == 'u';
    assert ShortEscapeChar(s[1]).None?;
    assert s[2..6] == Hex4(hi);
    assert s[6] == '\\' && s[7] == 'u';
    assert s[8..12] == Hex4(lo);
    assert s[12..] == tail;
  }

  /** The surrogate halves recombine to the code point. */
  lemma SurrogatesRecombine(n: int)
    requires 0x10000 <= n < 0x110000
    ensures 0x10000 + (HighSurrogate(n) - 0xD800) * 0x400 + (LowSurrogate(n) - 0xDC00) == n
  {
  }

  lemma {:induction false} ParseUnitSupplementary(c: char, tail: string)
    requires c as int >= 0x10000
    ensures ParseUnit(EscapeChar(c) + tail) == Some((c, tail))
  {
    var n := c as int;
    assert !IsPlain(c) && ShortEscapeLetter(c).None?;
    assert EscapeChar(c) == "\\u" + Hex4(HighSurrogate(n)) + "\\u" + Hex4(LowSurrogate(n));
    SurrogatesRecombine(n);
    ParseUnitSurrogatePair(c, HighSurrogate(n), LowSurrogate(n), tail);
    assert EscapeChar(c) + tail == "\\u" + Hex4(HighSurrogate(n)) + "\\u" + Hex4(LowSurrogate(n)) + tail;
  }

  /** Escaped characters read back one at a time. */
  lemma {:induction false} ParseUnitEscapeChar(c: char, tail: string)
    ensures ParseUnit(EscapeChar(c) + tail) == Some((c, tail))
  {
    if IsPlain(c) {
      ParseUnitPlain(c, tail);
    } else if ShortEscapeLetter(c).Some? {
      ParseUnitShort(c, tail);
    } else if c as int < 0x10000 {
      ParseUnitBasicPlane(c, tail);
    } else {
      ParseUnitSupplementary(c, tail);
    }
  }

  lemma {:induction false} ParseStringBodyStep(s: string, c: char, rest: string)
    requires |s| > 0 && s[0] != '\"' && ParseUnit(s) == Some((c, rest))
    ensures ParseStringBody(s) ==
              match ParseStringBody(rest)
              case None => None
              case Some((body, after)) => Some(([c] + body, after))
  {
  }

  /** One escaped character in front of a string body that reads back. */
  lemma {:induction false} ParseStringBodyCons(c: char, body: string, tail: string)
    requires ParseStringBody(EscapeString(body) + "\"" + tail) == Some((body, tail))
    ensures ParseStringBody(EscapeChar(c) + (EscapeString(body) + "\"" + tail)) == Some(([c] + body, tail))
  {
    var rest := EscapeString(body) + "\"" + tail;
    var s := EscapeChar(c) + rest;
    assert s[0] == EscapeChar(c)[0];
    ParseUnitEscapeChar(c, rest);
    ParseStringBodyStep(s, c, rest);
  }

  lemma {:induction false} ParseStringBodyEscaped(x: string, tail: string)
    ensures ParseStringBody(EscapeString(x) + "\"" + tail) == Some((x, tail))
  {
    if |x| == 0 {
      var s := EscapeString(x) + "\"" + tail;
      assert s == "\"" + tail;
      assert s[1..] == tail;
    } else {
      ParseStringBodyEscaped(x[1..], tail);
      ParseStringBodyCons(x[0], x[1..], tail);
      assert EscapeString(x) == EscapeChar(x[0]) + EscapeString(x[1..]);
      ConcatRegroup(EscapeChar(x[0]), EscapeString(x[1..]), "\"", tail);
      assert [x[0]] + x[1..] == x;
    }
  }

  lemma {:induction false} SkipSpaceNone(s: string)
    requires |s| > 0 && !IsJsonSpace(s[0])
    ensures SkipSpace(s) == s
  {
  }

  /** A list item written by `Quote` is read back, and what follows it decides the rest. */
  lemma {:induction false} ParseItemsQuoted(x: string, rest: string)
    ensures ParseItems(Quote(x) + rest) == ItemsAfter(x, rest)
  {
    ConcatRegroup("\"", EscapeString(x), "\"", rest);
    assert Quote(x) + rest == "\"" + (EscapeString(x) + "\"" + rest);
    ParseStringBodyEscaped(x, rest);
    ParseItemsOpenQuote(EscapeString(x) + "\"" + rest, x, rest);
  }

  /** A list item starts with a quote; the string body after it decides the rest. */
  lemma {:induction false} ParseItemsOpenQuote(t: string, item: string, rest: string)
    requires ParseStringBody(t) == Some((item, rest))
    ensures ParseItems("\"" + t) == ItemsAfter(item, rest)
  {
    assert ("\"" + t)[0] == '\"';
    assert ("\"" + t)[1..] == t;
  }

  lemma {:induction false} ItemsAfterLast(item: string, rest: string)
    requires |rest| > 0 && rest[0] == ']'
    ensures ItemsAfter(item, rest) == Some(([item], rest[1..]))
  {
    SkipSpaceNone(rest);
  }

  lemma {:induction false} ItemsAfterMore(item: string, rest: string, items: seq<string>, after: string)
    requires |rest| > 1 && rest[0] == ',' && ParseItems(SkipSpace(rest[1..])) == Some((items, after))
    ensures ItemsAfter(item, rest) == Some(([item] + items, after))
  {
    SkipSpaceNone(rest);
  }

  lemma ConcatRegroup(a: string, b: string, c: string, d: string)
    ensures (a + b) + c + d == a + (b + c + d)
  {
  }

  lemma DropSeparator(t: string)
    ensures (", " + t)[1..] == " " + t
  {
  }

  lemma {:induction false} ParseItemsDumpedLast(x: string, xs: seq<string>, tail: string)
    requires |xs| == 0
    ensures ParseItems(Quote(x) + DumpsTail(xs) + "]" + tail) == Some(([x] + xs, tail))
  {
    var rest := "]" + tail;
    assert DumpsTail(xs) == "";
    assert [x] + xs == [x];
    ConcatRegroup(Quote(x), DumpsTail(xs), "]", tail);
    assert DumpsTail(xs) + "]" + tail == rest;
    ParseItemsQuoted(x, rest);
    ItemsAfterLast(x, rest);
    assert rest[1..] == tail;
  }

  /** A `", "` separator followed by a further item continues the list. */
  lemma {:induction false} ItemsAfterSeparator(x: string, next: string, items: seq<string>, tail: string)
    requires |next| > 0 && next[0] == '\"' && ParseItems(next) == Some((items, tail))
    ensures ItemsAfter(x, ", " + next) == Some(([x] + items, tail))
  {
    var rest := ", " + next;
    DropSeparator(next);
    SkipSpaceNone(next);
    assert SkipSpace(rest[1..]) == next;
    ItemsAfterMore(x, rest, items, tail);
  }

  lemma {:induction false} DumpsTailCons(xs: seq<string>, tail: string)
    requires |xs| > 0
    ensures DumpsTail(xs) + "]" + tail == ", " + (Quote(xs[0]) + DumpsTail(xs[1..]) + "]" + tail)
  {
    assert DumpsTail(xs) == ", " + (Quote(xs[0]) + DumpsTail(xs[1..]));
    ConcatRegroup(", ", Quote(xs[0]) + DumpsTail(xs[1..]), "]", tail);
  }

  /** A quoted item followed by a separator and a further list continues it. */
  lemma {:induction false} ParseItemsSeparated(x: string, next: string, items: seq<string>, tail: string)
    requires |next| > 0 && next[0] == '\"' && ParseItems(next) == Some((items, tail))
    ensures ParseItems(Quote(x) + (", " + next)) == Some(([x] + items, tail))
  {
    ParseItemsQuoted(x, ", " + next);
    ItemsAfterSeparator(x, next, items, tail);
  }

  lemma {:induction false} ParseItemsDumpedCons(x: string, xs: seq<string>, tail: string)
    requires |xs| > 0
    requires ParseItems(Quote(xs[0]) + DumpsTail(xs[1..]) + "]" + tail) == Some(([xs[0]] + xs[1..], tail))
    ensures ParseItems(Quote(x) + DumpsTail(xs) + "]" + tail) == Some(([x] + xs, tail))
  {
    assert [xs[0]] + xs[1..] == xs;
    var next := Quote(xs[0]) + DumpsTail(xs[1..]) + "]" + tail;
    ConcatRegroup(Quote(x), DumpsTail(xs), "]", tail);
    DumpsTailCons(xs, tail);
    assert Quote(xs[0])[0] == '\"';
    assert next[0] == '\"';
    ParseItemsSeparated(x, next, xs, tail);
  }

  /** The items `json.dumps` wrote after an opening bracket are read back,
      whatever text follows the closing bracket. */
  lemma {:induction false} ParseItemsDumped(x: string, xs: seq<string>, tail: string)
    ensures ParseItems(Quote(x) + DumpsTail(xs) + "]" + tail) == Some(([x] + xs, tail))
    decreases |xs|
  {
    if |xs| == 0 {
      ParseItemsDumpedLast(x, xs, tail);
    } else {
      ParseItemsDumped(xs[0], xs[1..], tail);
      ParseItemsDumpedCons(x, xs, tail);
    }
  }

  lemma {:induction false} LoadsEmptyList()
    ensures Loads("[]") == Some(StringItems([]))
  {
    var s := "[]";
    SkipSpaceNone(s);
    assert s[1..] == "]";
    SkipSpaceNone(s[1..]);
    assert s[1..][1..] == "";
  }

  lemma {:induction false} LoadsList(s: string, items: seq<string>)
    requires |s| > 1 && s[0] == '[' && s[1] == '\"' && ParseItems(s[1..]) == Some((items, ""))
    ensures Loads(s) == Some(StringItems(items))
  {
    SkipSpaceNone(s);
    SkipSpaceNone(s[1..]);
    var t := SkipSpace(s);
    assert t == s;
    assert !(|t| >= 4 && t[..4] == "null") by {
      if |t| >= 4 {
        assert t[..4][0] == '[';
      }
    }
    var u := SkipSpace(t[1..]);
    assert u == s[1..] && u[0] == '\"';
    assert SkipSpace("") == "";
  }

  /** Reading back what `json.dumps` wrote gives the same strings. */
  lemma {:induction false} LoadsDumps(ss: seq<string>)
    ensures Loads(Dumps(ss)) == Some(StringItems(ss))
  {
    if |ss| == 0 {
      LoadsEmptyList();
    } else {
      var s := Dumps(ss);
      var body := Quote(ss[0]) + DumpsTail(ss[1..]) + "]" + "";
      assert Quote(ss[0]) + DumpsTail(ss[1..]) + "]" == body;
      ConcatRegroup("[", Quote(ss[0]), DumpsTail(ss[1..]), "]");
      assert s == "[" + body;
      assert s[1..] == body;
      assert |body| > 0 && body[0] == '\"';
      ParseItemsDumped(ss[0], ss[1..], "");
      assert [ss[0]] + ss[1..] == ss;
      LoadsList(s, ss);
    }
  }

  lemma {:induction false} LoadsNull()
    ensures Loads(DumpsNull) == Some(NullValue)
  {
    assert SkipSpace(DumpsNull) == DumpsNull;
    assert DumpsNull[..4] == "null";
    assert DumpsNull[4..] == "";
  }

  /** Every escape is at least as long as the character it stands for. */
  lemma {:induction false} EscapeStringLength(x: string)
    ensures |EscapeString(x)| >= |x|
  {
    if |x| > 0 {
      EscapeStringLength(x[1..]);
    }
  }

  lemma {:induction false} DumpsTailLength(ss: seq<string>)
    ensures |DumpsTail(ss)| >= 4 * |ss|
  {
    if |ss| > 0 {
      EscapeStringLength(ss[0]);
      DumpsTailLength(ss[1..]);
    }
  }

  /** Each item takes at least its two quotes and a two-character separator
      or the brackets, so the text has at least four characters per item. */
  lemma DumpsLength(ss: seq<string>)
    ensures |Dumps(ss)| >= 4 * |ss|
  {
    if |ss| > 0 {
      EscapeStringLength(ss[0]);
      DumpsTailLength(ss[1..]);
    }
  }

  /** The UTF-8 bytes of an ASCII text: one byte per character, its code. */
  function AsciiBytes(s: string): (r: seq<int>)
    requires IsAscii(s)
    ensures |r| == |s|
    ensures forall i :: 0 <= i < |r| ==> 0 <= r[i] < 128 && r[i] == s[i] as int
  {
    seq(|s|, i requires 0 <= i < |s| => s[i] as int)
  }

  /** `bytes.decode("utf8")` on bytes below 128; any other byte is refused. */
  function DecodeAscii(bytes: seq<int>): (r: Option<string>)
    ensures r.Some? <==> forall i :: 0 <= i < |bytes| ==> 0 <= bytes[i] < 128
    ensures r.Some? ==> IsAscii(r.value) && AsciiBytes(r.value) == bytes
  {
    if forall i :: 0 <= i < |bytes| ==> 0 <= bytes[i] < 128 then
      var s := seq(|bytes|, i requires 0 <= i < |bytes| && 0 <= bytes[i] < 128 => bytes[i] as char);
      assert AsciiBytes(s) == bytes;
      Some(s)
    else None
  }

  /** Decoding the bytes of an ASCII text gives the text back. */
  lemma DecodeAsciiBytes(s: string)
    requires IsAscii(s)
    ensures DecodeAscii(AsciiBytes(s)) == Some(s)
  {
    var r := DecodeAscii(AsciiBytes(s));
    assert r.Some?;
    assert AsciiBytes(r.value) == AsciiBytes(s);
    assert forall i :: 0 <= i < |s| ==> r.value[i] as int == s[i] as int;
    assert forall i :: 0 <= i < |s| ==> r.value[i] == s[i];
    assert |r.value| == |s|;
    assert r.value == s;
  }
}
