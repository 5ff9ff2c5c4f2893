/**
 * The two pieces of the Java standard library that the store's behaviour
 * depends on: `String.isBlank` (through `Character.isWhitespace`) and the
 * line splitting of `BufferedReader.readLine`.
 */
module JavaText {

  /** `Character.isWhitespace`: the Unicode space, line and paragraph
    * separators except the three non-breaking spaces, plus the ASCII
    * controls U+0009..U+000D and U+001C..U+001F. */
  predicate IsWhitespace(c: char)
  {
    var u := c as int;
    || (0x09 <= u <= 0x0D)
    || (0x1C <= u <= 0x1F)
    || u == 0x20
    || u == 0x1680
    || (0x2000 <= u <= 0x200A && u != 0x2007)
    || u == 0x2028
    || u == 0x2029
    || u == 0x205F
    || u == 0x3000
  }

  /** `String.isBlank`: empty, or whitespace only. */
  predicate IsBlank(s: string)
  {
    forall i | 0 <= i < |s| :: IsWhitespace(s[i])
  }

  predicate NoLineBreak(s: string)
  {
    '\r' !in s && '\n' !in s
  }

  /**
   * One call of `BufferedReader.readLine` on the unread text `s`: the line
   * up to the first '\n', '\r' or "\r\n" (the terminator is consumed and not
   * returned), and the text left unread. Text without a terminator is one
   * last line.
   */
  function ReadLine(s: string): (r: (string, string))
    ensures s != [] ==> |r.1| < |s|
    ensures NoLineBreak(r.0)
    ensures || (s == r.0 && r.1 == [])
            || s == r.0 + "\n" + r.1
            || s == r.0 + "\r\n" + r.1
            || (s == r.0 + "\r" + r.1 && (r.1 == [] || r.1[0] != '\n'))
  {
    if s == [] then ([], [])
    else if s[0] == '\n' then ([], s[1..])
    else if s[0] == '\r' then ([], if |s| > 1 && s[1] == '\n' then s[2..] else s[1..])
    else
      var (line, rest) := ReadLine(s[1..]);
      assert s == [s[0]] + s[1..];
      ([s[0]] + line, rest)
  }

  /** A line written with a "\r\n" terminator is read back exactly. */
  lemma {:induction false} ReadLineTerminated(line: string, rest: string)
    requires NoLineBreak(line)
    ensures ReadLine(line + "\r\n" + rest) == (line, rest)
  {
    var s := line + "\r\n" + rest;
    if line == [] {
      assert s == "\r\n" + rest;
      assert s[2..] == rest;
    } else {
      assert s[0] == line[0];
      assert s[1..] == line[1..] + "\r\n" + rest;
      ReadLineTerminated(line[1..], rest);
      assert [line[0]] + line[1..] == line;
    }
  }
}
