/** Option type used for the outcome of parsing a stored record. */
module Wrappers {
  datatype Option<T> = None | Some(value: T)
}

/**
 * The item codec of the diary: a diary item is the pair {type, data}, stored in
 * local storage as a serialized string.
 *
 * The page serializes with JSON.stringify and parses with JSON.parse. Here the JSON
 * text layer is the exact text JSON.stringify writes for the object that
 * makeDiaryItem builds:  {"type":"<type>","data":"<data>"}, with each string body
 * escaped as JSON.stringify escapes it (section 25.5.2.3, QuoteJSONString, of
 * ECMA-262). ParseItem returning None stands for JSON.parse throwing.
 */
module Codec {
  import opened Wrappers

  /**
   * A diary item. `kind` is the item's `type` property: "text" or "image" when the
   * page writes it; `data` is the text or the image data URL.
   */
  datatype Item = Item(kind: string, data: string)

  const Open: string := "{\"type\":\""
  const Sep: string := ",\"data\":\""
  const Close: string := "}"

  predicate IsLowerHex(c: char) { '0' <= c <= '9' || 'a' <= c <= 'f' }

  function HexDigit(d: nat): (c: char)
    requires d < 16
    ensures IsLowerHex(c)
  {
    if d < 10 then (48 + d) as char else (87 + d) as char
  }

  function HexValue(c: char): (d: nat)
    requires IsLowerHex(c)
    ensures d < 16 && HexDigit(d) == c
  {
    if c <= '9' then c as int - 48 else c as int - 87
  }

  /** A character below U+0020, which JSON strings may not hold unescaped. */
  predicate IsControl(c: char) { c as int < 0x20 }

  /** The control characters with a two-character escape: backspace, tab, line feed, form feed, carriage return. */
  predicate HasShortEscape(v: int) { v == 8 || v == 9 || v == 10 || v == 12 || v == 13 }

  /**
   * How JSON.stringify writes one character inside a string: quote and backslash
   * get a backslash in front, the five control characters with a short escape get
   * \b \t \n \f \r, the other control characters \u00XX with lower-case hex digits,
   * and every other character stands for itself.
   */
  function EscapeChar(c: char): (r: string)
    ensures 1 <= |r|
  {
    if c == '"' then ['\\', '"']
    else if c == '\\' then ['\\', '\\']
    else if c as int == 8 then ['\\', 'b']
    else if c as int == 9 then ['\\', 't']
    else if c as int == 10 then ['\\', 'n']
    else if c as int == 12 then ['\\', 'f']
    else if c as int == 13 then ['\\', 'r']
    else if IsControl(c) then
      // below 0x20, so the high hex digit is 0 or 1
      var v := c as int;
      ['\\', 'u', '0', '0', HexDigit(if v < 16 then 0 else 1), HexDigit(if v < 16 then v else v - 16)]
    else [c]
  }

  /** The body of a string literal as JSON.stringify writes it. */
  function Escape(s: string): string
  {
    if s == [] then []
    else EscapeChar(s[0]) + Escape(s[1..])
  }

  /**
   * Reads one escape sequence at the start of s: the character it stands for, when
   * it is one of the escapes JSON.stringify writes.
   */
  function ReadEscape(s: string): (r: Option<char>)
    ensures r.Some? ==> |EscapeChar(r.value)| <= |s| && s[..|EscapeChar(r.value)|] == EscapeChar(r.value)
  {
    if |s| < 2 || s[0] != '\\' then None
    else if s[1] == '"' then Some('"')
    else if s[1] == '\\' then Some('\\')
    else if s[1] == 'b' then Some(8 as char)
    else if s[1] == 't' then Some(9 as char)
    else if s[1] == 'n' then Some(10 as char)
    else if s[1] == 'f' then Some(12 as char)
    else if s[1] == 'r' then Some(13 as char)
    else if s[1] == 'u' && |s| >= 6 && s[2] == '0' && s[3] == '0' && (s[4] == '0' || s[4] == '1') && IsLowerHex(s[5]) then
      var v := HexValue(s[4]) * 16 + HexValue(s[5]);
      if HasShortEscape(v) then None
      else
        assert EscapeChar(v as char) == s[..6];
        Some(v as char)
    else None
  }

  /**
   * Reads an escaped string body up to its unescaped closing quote; returns the
   * unescaped body and what follows the quote. Whatever it accepts is exactly an
   * escaped body, a quote and the rest. A raw control character is refused, as
   * JSON.parse refuses it.
   */
  function ParseString(s: string): (r: Option<(string, string)>)
    ensures r.Some? ==> s == Escape(r.value.0) + ("\"" + r.value.1)
    decreases |s|
  {
    if s == [] then None
    else if s[0] == '"' then Some(([], s[1..]))
    else if s[0] == '\\' then
      (match ReadEscape(s)
       case None => None
       case Some(c) =>
         var n := |EscapeChar(c)|;
         match ParseString(s[n..])
         case None => None
         case Some(p) =>
           PrependEscaped(c, p.0, p.1, s);
           Some(([c] + p.0, p.1)))
    else if IsControl(s[0]) then None
    else
      (match ParseString(s[1..])
       case None => None
       case Some(p) =>
         PlainChar(s[0]);
         PrependEscaped(s[0], p.0, p.1, s);
         Some(([s[0]] + p.0, p.1)))
  }

  /** Every character other than quote, backslash and the control characters stands for itself. */
  lemma PlainChar(c: char)
    requires c != '"' && c != '\\' && !IsControl(c)
    ensures EscapeChar(c) == [c]
  {
  }

  /** An escaped character in front of an escaped body is the escaped body of the longer string. */
  lemma PrependEscaped(c: char, x: string, rest: string, s: string)
    requires |EscapeChar(c)| <= |s| && s[..|EscapeChar(c)|] == EscapeChar(c)
    requires s[|EscapeChar(c)|..] == Escape(x) + ("\"" + rest)
    ensures s == Escape([c] + x) + ("\"" + rest)
  {
    var h := EscapeChar(c);
    assert s == h + s[|h|..];
    EscapeCons(c, x);
    ConcatAssoc(h, Escape(x), "\"" + rest);
  }

  /** makeDiaryItem: the serialized form of the item {type, data}. */
  function MakeDiaryItem(kind: string, data: string): string
  {
    Open + (Escape(kind) + ("\"" + (Sep + (Escape(data) + ("\"" + Close)))))
  }

  /** The rest of s after the prefix p, if s starts with p. */
  function StripPrefix(p: string, s: string): (r: Option<string>)
    ensures r.Some? ==> s == p + r.value
    ensures r.None? ==> !(|p| <= |s| && s[..|p|] == p)
  {
    if |p| <= |s| && s[..|p|] == p then Some(s[|p|..]) else None
  }

  /**
   * The decode step of the load pass: None when the text is not a serialized item
   * (JSON.parse would throw); otherwise the item, and the text is then exactly
   * what MakeDiaryItem writes for it.
   */
  function ParseItem(s: string): (r: Option<Item>)
    ensures r.Some? ==> s == MakeDiaryItem(r.value.kind, r.value.data)
  {
    match StripPrefix(Open, s)
    case None => None
    case Some(a) =>
      match ParseString(a)
      case None => None
      case Some(p) =>
        match StripPrefix(Sep, p.1)
        case None => None
        case Some(c) =>
          match ParseString(c)
          case None => None
          case Some(q) =>
            if q.1 != Close then None
            else
              Reassemble(s, a, p.1, c, Escape(p.0), Escape(q.0));
              Some(Item(p.0, q.0))
  }

  /** Puts the four pieces ParseItem splits a text into back together. */
  lemma Reassemble(s: string, a: string, b: string, c: string, k: string, d: string)
    requires s == Open + a && a == k + ("\"" + b) && b == Sep + c && c == d + ("\"" + Close)
    ensures s == Open + (k + ("\"" + (Sep + (d + ("\"" + Close)))))
  {
  }

  /** An escape sequence JSON.stringify writes reads back as its character. */
  lemma ReadEscapeChar(c: char, t: string)
    requires c == '"' || c == '\\' || IsControl(c)
    ensures ReadEscape(EscapeChar(c) + t) == Some(c)
  {
    var s := EscapeChar(c) + t;
    if IsControl(c) && !HasShortEscape(c as int) {
      var v := c as int;
      assert s[4] == HexDigit(if v < 16 then 0 else 1) && s[5] == HexDigit(if v < 16 then v else v - 16);
    }
  }

  /** Parsing past one escape sequence JSON.stringify writes. */
  lemma ParseStep(c: char, t: string, x: string, rest: string)
    requires ParseString(t) == Some((x, rest))
    ensures ParseString(EscapeChar(c) + t) == Some(([c] + x, rest))
  {
    var h := EscapeChar(c);
    var s := h + t;
    assert s[|h|..] == t;
    if c == '"' || c == '\\' || IsControl(c) {
      ReadEscapeChar(c, t);
    } else {
      PlainChar(c);
      assert s[0] == c && s[1..] == t;
    }
  }

  /** Reading an escaped body back gives the original string and leaves the rest alone. */
  lemma {:induction false} ParseEscaped(x: string, rest: string)
    ensures ParseString(Escape(x) + ("\"" + rest)) == Some((x, rest))
    decreases |x|
  {
    if x == [] {
      assert Escape(x) + ("\"" + rest) == "\"" + rest;
    } else {
      ParseEscaped(x[1..], rest);
      var t := Escape(x[1..]) + ("\"" + rest);
      assert Escape(x) + ("\"" + rest) == EscapeChar(x[0]) + t;
      ParseStep(x[0], t, x[1..], rest);
      assert [x[0]] + x[1..] == x;
    }
  }

  /** A raw control character inside a string body makes the record fail to decode. */
  lemma RawControlCharacterRefused(c: char, t: string)
    requires IsControl(c)
    ensures ParseString([c] + t) == None
  {
  }

  /** No quote, backslash or control character: JSON.stringify writes such text as it is. */
  predicate Plain(x: string)
  {
    forall i :: 0 <= i < |x| ==> x[i] != '"' && x[i] != '\\' && !IsControl(x[i])
  }

  lemma {:induction false} EscapePlain(x: string)
    requires Plain(x)
    ensures Escape(x) == x
    decreases |x|
  {
    if x != [] {
      PlainChar(x[0]);
      EscapePlain(x[1..]);
      assert [x[0]] + x[1..] == x;
    }
  }

  /** Escaping a string that starts with c writes c's escape first. */
  lemma EscapeCons(c: char, u: string)
    ensures Escape([c] + u) == EscapeChar(c) + Escape(u)
  {
    assert ([c] + u)[1..] == u;
  }

  /** Escaping works character by character, so it distributes over concatenation. */
  lemma {:induction false} EscapeAppend(x: string, y: string)
    ensures Escape(x + y) == Escape(x) + Escape(y)
    decreases |x|
  {
    if x == [] {
      assert x + y == y;
    } else {
      var c, t := x[0], x[1..];
      assert x == [c] + t && x + y == [c] + (t + y);
      EscapeAppend(t, y);
      EscapeAppendStep(c, t, y);
    }
  }

  /** The inductive step of EscapeAppend: one more character in front. */
  lemma EscapeAppendStep(c: char, t: string, y: string)
    requires Escape(t + y) == Escape(t) + Escape(y)
    ensures Escape([c] + (t + y)) == Escape([c] + t) + Escape(y)
  {
    EscapeCons(c, t + y);
    EscapeCons(c, t);
    ConcatAssoc(EscapeChar(c), Escape(t), Escape(y));
  }

  lemma ConcatAssoc(a: string, b: string, c: string)
    ensures a + (b + c) == (a + b) + c
  {
  }

  /** A line break between two plain texts is escaped as the two characters \n. */
  lemma EscapeLineBreak(a: string, b: string)
    requires Plain(a) && Plain(b)
    ensures Escape(a + "\n" + b) == a + "\\n" + b
  {
    EscapeAppend(a + "\n", b);
    EscapeAppend(a, "\n");
    EscapePlain(a);
    EscapePlain(b);
    assert Escape("\n") == "\\n" by {
      EscapeCons('\n', []);
      assert ['\n'] + [] == "\n";
    }
    assert Escape(a + "\n" + b) == a + "\\n" + b;
  }

  /**
   * A line break typed into a text entry is stored as the two-character escape \n,
   * as JSON.stringify writes it, never as a raw line feed.
   */
  lemma LineBreakStoredEscaped(a: string, b: string)
    requires Plain(a) && Plain(b)
    ensures MakeDiaryItem("text", a + "\n" + b) == Open + ("text" + ("\"" + (Sep + ((a + "\\n" + b) + ("\"" + Close)))))
  {
    EscapeLineBreak(a, b);
    EscapePlain("text");
  }

  /** Round trip: decoding what makeDiaryItem wrote recovers both fields unchanged. */
  lemma ParseMakeDiaryItem(kind: string, data: string)
    ensures ParseItem(MakeDiaryItem(kind, data)) == Some(Item(kind, data))
  {
    var c := Escape(data) + ("\"" + Close);
    var b := Sep + c;
    var a := Escape(kind) + ("\"" + b);
    StripConcat(Open, a);
    ParseEscaped(kind, b);
    StripConcat(Sep, c);
    ParseEscaped(data, Close);
    ParseItemSteps(Open + a, a, (kind, b), c, (data, Close));
  }

  /** Stripping a prefix from the text that starts with it. */
  lemma StripConcat(p: string, a: string)
    ensures StripPrefix(p, p + a) == Some(a)
  {
    assert (p + a)[..|p|] == p;
    assert (p + a)[|p|..] == a;
  }

  /** ParseItem succeeds when each of its four steps does. */
  lemma ParseItemSteps(s: string, a: string, p: (string, string), c: string, q: (string, string))
    requires StripPrefix(Open, s) == Some(a) && ParseString(a) == Some(p)
    requires StripPrefix(Sep, p.1) == Some(c) && ParseString(c) == Some(q) && q.1 == Close
    ensures ParseItem(s) == Some(Item(p.0, q.0))
  {
  }

  /** Two items serialize to the same text only if they are the same item. */
  lemma MakeDiaryItemInjective(t1: string, d1: string, t2: string, d2: string)
    ensures MakeDiaryItem(t1, d1) == MakeDiaryItem(t2, d2) <==> t1 == t2 && d1 == d2
  {
    ParseMakeDiaryItem(t1, d1);
    ParseMakeDiaryItem(t2, d2);
  }
}
