/**
 * The slice of JSON that an entry's record uses: a string field and a
 * `long` field. Jackson's writer escapes '"', '\' and the control
 * characters below U+0020 (with the short escapes \b \t \n \f \r where
 * JSON has one, otherwise \u00XX in upper-case hex) and copies every other
 * character; a `long` is written in decimal with no leading zeros. The
 * reader takes more than the writer produces, as Jackson's does: every JSON
 * string escape (`\/`, `\u` with hex digits of either case) other than a
 * surrogate half, and `-0`.
 */
module Json {
  import opened Wrappers

  function HexDigit(d: int): char
    requires 0 <= d < 16
  {
    if d < 10 then ('0' as int + d) as char else ('A' as int + d - 10) as char
  }

  function HexValue(c: char): (r: Option<int>)
    ensures r.Some? ==> 0 <= r.value < 16
  {
    if '0' <= c <= '9' then Some(c as int - '0' as int)
    else if 'A' <= c <= 'F' then Some(c as int - 'A' as int + 10)
    else if 'a' <= c <= 'f' then Some(c as int - 'a' as int + 10)
    else None
  }

  /** Jackson's output for one character of a string value. */
  function Escape(c: char): string
  {
    if c == '"' then "\\\""
    else if c == '\\' then "\\\\"
    else if c == '\n' then "\\n"
    else if c == '\r' then "\\r"
    else if c == '\t' then "\\t"
    else if c as int == 8 then "\\b"
    else if c as int == 12 then "\\f"
    else if (c as int) < 0x20 then "\\u00" + [HexDigit(c as int / 16), HexDigit(c as int % 16)]
    else [c]
  }

  function EscapeAll(s: string): string
  {
    if s == [] then "" else Escape(s[0]) + EscapeAll(s[1..])
  }

  /** A string value as Jackson writes it: escaped, in double quotes. */
  function Quote(s: string): string
  {
    "\"" + EscapeAll(s) + "\""
  }

  /** The character an escape sequence (the text after its backslash)
    * stands for, and the text after the sequence. */
  function ReadEscape(s: string): (r: Option<(char, string)>)
    ensures r.Some? ==> |r.value.1| < |s|
  {
    if s == [] then None
    else if s[0] == '"' then Some(('"', s[1..]))
    else if s[0] == '\\' then Some(('\\', s[1..]))
    else if s[0] == '/' then Some(('/', s[1..]))
    else if s[0] == 'b' then Some((8 as char, s[1..]))
    else if s[0] == 'f' then Some((12 as char, s[1..]))
    else if s[0] == 'n' then Some(('\n', s[1..]))
    else if s[0] == 'r' then Some(('\r', s[1..]))
    else if s[0] == 't' then Some(('\t', s[1..]))
    else if s[0] == 'u' && |s| >= 5 then
      match HexQuad(s[1], s[2], s[3], s[4])
      case None => None
      case Some(code) =>
        // a lone surrogate half is not a character of its own
        if 0xD800 <= code < 0xE000 then None else Some((code as char, s[5..]))
    else None
  }

  /** The code unit written as the four hex digits of a `\u` escape. */
  function HexQuad(c1: char, c2: char, c3: char, c4: char): (r: Option<int>)
    ensures r.Some? ==> 0 <= r.value < 0x10000
  {
    match (HexValue(c1), HexValue(c2), HexValue(c3), HexValue(c4))
    case (Some(a), Some(b), Some(c), Some(d)) =>
      var hi := a * 16 + b;
      assert 0 <= hi < 256;
      var lo := c * 16 + d;
      assert 0 <= lo < 256;
      Some(hi * 256 + lo)
    case _ => None
  }

  /** Reads the body of a string value up to its closing quote: the decoded
    * characters and the text after the quote. */
  function Unescape(s: string): Option<(string, string)>
    decreases |s|
  {
    if s == [] then None
    else if s[0] == '"' then Some(("", s[1..]))
    else if s[0] == '\\' then
      match ReadEscape(s[1..])
      case None => None
      case Some((c, rest)) =>
        match Unescape(rest)
        case None => None
        case Some((body, after)) => Some(([c] + body, after))
    else if (s[0] as int) < 0x20 then None   // raw control characters are refused
    else
      match Unescape(s[1..])
      case None => None
      case Some((body, after)) => Some(([s[0]] + body, after))
  }

  /** Reads one quoted string value at the front of `s`. */
  function ParseString(s: string): Option<(string, string)>
  {
    if s != [] && s[0] == '"' then Unescape(s[1..]) else None
  }

  function DigitChar(d: int): char
    requires 0 <= d < 10
  {
    ('0' as int + d) as char
  }

  predicate IsDigit(c: char)
  {
    '0' <= c <= '9'
  }

  function NatToString(n: nat): string
  {
    if n < 10 then [DigitChar(n)] else NatToString(n / 10) + [DigitChar(n % 10)]
  }

  /** A `long` as Jackson writes it. */
  function IntToString(i: int): string
  {
    if i < 0 then "-" + NatToString(-i) else NatToString(i)
  }

  function DigitsValue(ds: string): nat
    requires forall k | 0 <= k < |ds| :: IsDigit(ds[k])
  {
    if ds == [] then 0
    else
      assert IsDigit(ds[|ds| - 1]);
      DigitsValue(ds[..|ds| - 1]) * 10 + (ds[|ds| - 1] as int - '0' as int)
  }

  /** A JSON integer that is the whole of `s`: an optional minus sign and a
    * non-empty run of digits without a leading zero. */
  function ParseNat(s: string): Option<nat>
  {
    if s == [] || (|s| > 1 && s[0] == '0') then None
    else if forall k | 0 <= k < |s| :: IsDigit(s[k]) then Some(DigitsValue(s))
    else None
  }

  function ParseInt(s: string): Option<int>
  {
    if s != [] && s[0] == '-' then
      match ParseNat(s[1..])
      case None => None
      case Some(v) => Some(-(v as int))
    else
      match ParseNat(s)
      case None => None
      case Some(v) => Some(v)
  }

  // ---------------------------------------------------------------- lemmas

  lemma HexRoundTrip(d: int)
    requires 0 <= d < 16
    ensures HexValue(HexDigit(d)) == Some(d)
  {
  }

  /** The character a two-character escape stands for. */
  lemma ShortEscape(c: char, tail: string)
    requires c == '"' || c == '\\' || c == '\n' || c == '\r' || c == '\t' || c as int == 8 || c as int == 12
    ensures ReadEscape(Escape(c)[1..] + tail) == Some((c, tail))
  {
    assert |Escape(c)| == 2;
    assert (Escape(c)[1..] + tail)[1..] == tail;
  }

  /** The character a `\u00XX` escape stands for. */
  lemma UnicodeEscape(c: char, tail: string)
    requires (c as int) < 0x20 && c != '\n' && c != '\r' && c != '\t' && c as int != 8 && c as int != 12
    ensures ReadEscape(Escape(c)[1..] + tail) == Some((c, tail))
  {
    var u := c as int;
    var hi, lo := u / 16, u % 16;
    assert Escape(c) == ['\\', 'u', '0', '0', HexDigit(hi), HexDigit(lo)];
    HexRoundTrip(0);
    HexRoundTrip(hi);
    HexRoundTrip(lo);
    var s := Escape(c)[1..] + tail;
    assert s == ['u', '0', '0', HexDigit(hi), HexDigit(lo)] + tail;
    assert s[5..] == tail;
    assert HexQuad('0', '0', HexDigit(hi), HexDigit(lo)) == Some(u);
  }

  /** Reading back one escaped character, followed by anything. */
  lemma EscapeStep(c: char, tail: string)
    ensures Unescape(Escape(c) + tail) ==
      match Unescape(tail)
      case None => None
      case Some((body, after)) => Some(([c] + body, after))
  {
    var s := Escape(c) + tail;
    if c == '"' || c == '\\' || c == '\n' || c == '\r' || c == '\t' || c as int == 8 || c as int == 12 {
      assert s[0] == '\\' && s[1..] == Escape(c)[1..] + tail;
      ShortEscape(c, tail);
    } else if (c as int) < 0x20 {
      assert s[0] == '\\' && s[1..] == Escape(c)[1..] + tail;
      UnicodeEscape(c, tail);
    } else {
      assert Escape(c) == [c];
      assert s[1..] == tail;
    }
  }

  lemma {:induction false} UnescapeRoundTrip(s: string, rest: string)
    ensures Unescape(EscapeAll(s) + "\"" + rest) == Some((s, rest))
  {
    if s == [] {
      assert EscapeAll(s) + "\"" + rest == "\"" + rest;
      assert ("\"" + rest)[1..] == rest;
    } else {
      var tail := EscapeAll(s[1..]) + "\"" + rest;
      assert EscapeAll(s) + "\"" + rest == Escape(s[0]) + tail;
      EscapeStep(s[0], tail);
      UnescapeRoundTrip(s[1..], rest);
      assert [s[0]] + s[1..] == s;
    }
  }

  /** Jackson reads back what it wrote for a string value, leaving the
    * text that follows untouched. */
  lemma QuoteRoundTrip(s: string, rest: string)
    ensures ParseString(Quote(s) + rest) == Some((s, rest))
  {
    var t := Quote(s) + rest;
    assert t[0] == '"';
    assert t[1..] == EscapeAll(s) + "\"" + rest;
    UnescapeRoundTrip(s, rest);
  }

  /** A closing quote ends a string value. */
  lemma ReadsClose(rest: string)
    ensures Unescape("\"" + rest) == Some(("", rest))
  {
    assert ("\"" + rest)[1..] == rest;
  }

  /** `\/`, which the writer never produces, reads as '/'. */
  lemma ReadsSlashEscape(rest: string)
    ensures ParseString("\"\\/\"" + rest) == Some(("/", rest))
  {
    var s := "\"\\/\"" + rest;
    assert s[1..] == "\\/\"" + rest;
    assert s[1..][1..] == "/\"" + rest;
    assert ("/\"" + rest)[1..] == "\"" + rest;
    assert ReadEscape(s[1..][1..]) == Some(('/', "\"" + rest));
    ReadsClose(rest);
    assert s[0] == '"' && s[1..][0] == '\\';
    assert [('/')] + "" == "/";
    assert Unescape(s[1..]) == Some(("/", rest));
  }

  /** `\u0041`, which the writer never produces, reads as 'A'. */
  lemma ReadsUnicodeEscape(rest: string)
    ensures ParseString("\"\\u0041\"" + rest) == Some(("A", rest))
  {
    var s := "\"\\u0041\"" + rest;
    var e := "u0041\"" + rest;
    assert s[1..] == "\\" + e;
    assert (s[1..])[1..] == e;
    assert e[1] == '0' && e[2] == '0' && e[3] == '4' && e[4] == '1';
    assert HexQuad('0', '0', '4', '1') == Some(0x41);
    assert e[5..] == "\"" + rest;
    assert ReadEscape(e) == Some(('A', "\"" + rest));
    ReadsClose(rest);
    assert s[0] == '"' && s[1..][0] == '\\';
    assert ['A'] + "" == "A";
    assert Unescape(s[1..]) == Some(("A", rest));
  }

  lemma {:induction false} EscapeAllNoLineBreak(s: string)
    ensures '\r' !in EscapeAll(s) && '\n' !in EscapeAll(s)
  {
    if s != [] {
      EscapeAllNoLineBreak(s[1..]);
    }
  }

  /** Escaping keeps a string value on one line. */
  lemma QuoteNoLineBreak(s: string)
    ensures '\r' !in Quote(s) && '\n' !in Quote(s)
  {
    EscapeAllNoLineBreak(s);
  }

  lemma {:induction false} NatToStringShape(n: nat)
    ensures var ds := NatToString(n);
      && ds != []
      && (forall k | 0 <= k < |ds| :: IsDigit(ds[k]))
      && (|ds| > 1 ==> ds[0] != '0')
      && DigitsValue(ds) == n
  {
    if n >= 10 {
      NatToStringShape(n / 10);
      var ds := NatToString(n);
      assert ds[..|ds| - 1] == NatToString(n / 10);
    }
  }

  lemma NatRoundTrip(n: nat)
    ensures ParseNat(NatToString(n)) == Some(n)
  {
    NatToStringShape(n);
  }

  /** Reading back a written `long` gives the same number. */
  lemma IntRoundTrip(i: int)
    ensures ParseInt(IntToString(i)) == Some(i)
  {
    if i < 0 {
      var ds := NatToString(-i);
      NatRoundTrip(-i);
      NatToStringShape(-i);
      assert ("-" + ds)[1..] == ds;
      assert ds[0] != '-';
    } else {
      NatRoundTrip(i);
      NatToStringShape(i);
      assert NatToString(i)[0] != '-';
    }
  }

  lemma IntToStringNoLineBreak(i: int)
    ensures '\r' !in IntToString(i) && '\n' !in IntToString(i)
  {
    if i < 0 { NatToStringShape(-i); } else { NatToStringShape(i); }
  }
}
