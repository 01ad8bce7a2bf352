// Quoting a setting the way Go's strconv.Quote does, and reading it back as a
// YAML double-quoted scalar (sections 5.7 and 7.3.1 of YAML 1.2.2).
module Quoting {
  import opened Prelude

  // Which characters print as themselves is a table of the Unicode version;
  // all that matters here is that it leaves out controls and line breaks.
  ghost predicate PrintTable(isPrint: char -> bool) {
    forall c :: isPrint(c) ==> ' ' <= c && c != '\U{7f}' && !IsBreak(c)
  }

  predicate IsBreak(c: char) {
    c == '\n' || c == '\r' || c == '\U{85}' || c == '\U{2028}' || c == '\U{2029}'
  }

  // ------------------------------------------------------------ hexadecimal

  function HexDigit(n: int): (c: char)
    requires 0 <= n < 16
  {
    "0123456789abcdef"[n]
  }

  function Hex(n: int, width: nat): (s: string)
    requires n >= 0
    ensures |s| == width
  {
    if width == 0 then "" else Hex(n / 16, width - 1) + [HexDigit(n % 16)]
  }

  // Either case is accepted when reading.
  function DigitValue(c: char): Option<int> {
    if '0' <= c <= '9' then Some((c - '0') as int)
    else if 'a' <= c <= 'f' then Some((c - 'a') as int + 10)
    else if 'A' <= c <= 'F' then Some((c - 'A') as int + 10)
    else None
  }

  function HexValue(s: string): Option<int> {
    if s == "" then Some(0)
    else match (HexValue(s[..|s| - 1]), DigitValue(s[|s| - 1]))
      case (Some(high), Some(low)) => Some(high * 16 + low)
      case _ => None
  }

  function Pow16(width: nat): (p: int)
    ensures p >= 1
  {
    if width == 0 then 1 else 16 * Pow16(width - 1)
  }

  lemma {:induction false} HexReadsBack(n: int, width: nat)
    requires 0 <= n < Pow16(width)
    ensures HexValue(Hex(n, width)) == Some(n)
  {
    if width > 0 {
      HexReadsBack(n / 16, width - 1);
      var s := Hex(n, width);
      assert s[..|s| - 1] == Hex(n / 16, width - 1);
      DigitReadsBack(n % 16);
    }
  }

  lemma DigitReadsBack(n: int)
    requires 0 <= n < 16
    ensures DigitValue(HexDigit(n)) == Some(n)
    ensures ' ' < HexDigit(n) < '\U{7f}'
  {
  }

  lemma {:induction false} HexIsPlain(n: int, width: nat)
    requires n >= 0
    ensures forall i :: 0 <= i < width ==> !IsBreak(Hex(n, width)[i])
  {
    if width > 0 {
      HexIsPlain(n / 16, width - 1);
      DigitReadsBack(n % 16);
    }
  }

  // ----------------------------------------------------------------- quoting

  function ShortEscape(c: char): Option<char> {
    match c
    case '\U{7}' => Some('a')
    case '\U{8}' => Some('b')
    case '\U{c}' => Some('f')
    case '\n' => Some('n')
    case '\r' => Some('r')
    case '\t' => Some('t')
    case '\U{b}' => Some('v')
    case _ => None
  }

  function Escape(c: char, isPrint: char -> bool): string {
    if c == '"' || c == '\\' then ['\\', c]
    else if isPrint(c) then [c]
    else if ShortEscape(c).Some? then ['\\', ShortEscape(c).value]
    else if c < ' ' || c == '\U{7f}' then ['\\', 'x'] + Hex(c as int, 2)
    else if c as int < 0x1_0000 then ['\\', 'u'] + Hex(c as int, 4)
    else ['\\', 'U'] + Hex(c as int, 8)
  }

  function Escaped(s: string, isPrint: char -> bool): string {
    if s == "" then "" else Escape(s[0], isPrint) + Escaped(s[1..], isPrint)
  }

  function Quote(s: string, isPrint: char -> bool): string {
    "\"" + Escaped(s, isPrint) + "\""
  }

  // ----------------------------------------------------------------- reading

  // What a single-character escape stands for.
  function EscapeValue(c: char): Option<char> {
    match c
    case '0' => Some('\0')
    case 'a' => Some('\U{7}')
    case 'b' => Some('\U{8}')
    case 't' => Some('\t')
    case '\t' => Some('\t')
    case 'n' => Some('\n')
    case 'v' => Some('\U{b}')
    case 'f' => Some('\U{c}')
    case 'r' => Some('\r')
    case 'e' => Some('\U{1b}')
    case ' ' => Some(' ')
    case '"' => Some('"')
    case '/' => Some('/')
    case '\\' => Some('\\')
    case 'N' => Some('\U{85}')
    case '_' => Some('\U{a0}')
    case 'L' => Some('\U{2028}')
    case 'P' => Some('\U{2029}')
    case _ => None
  }

  function HexWidth(c: char): nat {
    match c
    case 'x' => 2
    case 'u' => 4
    case 'U' => 8
    case _ => 0
  }

  // A character by its code point, if there is one.
  function CharAt(n: int): Option<char> {
    if 0 <= n < 0xD800 || 0xE000 <= n < 0x11_0000 then Some(n as char) else None
  }

  // One character of a double-quoted scalar, and how many it took to write.
  function ReadChar(s: string): Option<(char, nat)>
    requires s != ""
  {
    if s[0] != '\\' then
      if (s[0] < ' ' && s[0] != '\t') || IsBreak(s[0]) then None else Some((s[0], 1))
    else if |s| < 2 then None
    else
      var width := HexWidth(s[1]);
      if width > 0 then
        if |s| < 2 + width then None
        else match HexValue(s[2..2 + width])
          case None => None
          case Some(n) =>
            match CharAt(n)
            case None => None
            case Some(c) => Some((c, 2 + width))
      else match EscapeValue(s[1])
        case None => None
        case Some(c) => Some((c, 2))
  }

  // The content of a double-quoted scalar up to its closing quote, and what
  // follows the quote.
  function ReadBody(s: string): Option<(string, string)> {
    if s == "" then None
    else if s[0] == '"' then Some(("", s[1..]))
    else match ReadChar(s)
      case None => None
      case Some((c, n)) =>
        if n == 0 || n > |s| then None
        else match ReadBody(s[n..])
          case None => None
          case Some((value, rest)) => Some(([c] + value, rest))
  }

  // A whole line's value: one double-quoted scalar and nothing after it.
  function Unquote(s: string): Option<string> {
    if s == "" || s[0] != '"' then None
    else match ReadBody(s[1..])
      case Some((value, "")) => Some(value)
      case _ => None
  }

  // -------------------------------------------------------------- round trip

  lemma HexEscapeReadsBack(kind: char, n: int, c: char, tail: string)
    requires HexWidth(kind) > 0 && 0 <= n < Pow16(HexWidth(kind)) && CharAt(n) == Some(c)
    ensures ReadChar(['\\', kind] + Hex(n, HexWidth(kind)) + tail) == Some((c, 2 + HexWidth(kind)))
  {
    var s := ['\\', kind] + Hex(n, HexWidth(kind)) + tail;
    assert s[2..2 + HexWidth(kind)] == Hex(n, HexWidth(kind));
    HexReadsBack(n, HexWidth(kind));
  }

  lemma Powers()
    ensures Pow16(2) == 0x100 && Pow16(4) == 0x1_0000 && Pow16(8) == 0x1_0000_0000
  {
    assert Pow16(3) == 0x1000 && Pow16(5) == 0x10_0000 && Pow16(6) == 0x100_0000 && Pow16(7) == 0x1000_0000;
  }

  lemma CodePoint(c: char)
    ensures CharAt(c as int) == Some(c)
  {
  }

  predicate NeedsHex(c: char, isPrint: char -> bool) {
    c != '"' && c != '\\' && !isPrint(c) && ShortEscape(c).None?
  }

  lemma HexEscapedReadsBack(c: char, isPrint: char -> bool, tail: string)
    requires NeedsHex(c, isPrint)
    ensures ReadChar(Escape(c, isPrint) + tail) == Some((c, |Escape(c, isPrint)|))
    ensures forall i :: 0 <= i < |Escape(c, isPrint)| ==> !IsBreak(Escape(c, isPrint)[i])
  {
    Powers();
    CodePoint(c);
    var n := c as int;
    if c < ' ' || c == '\U{7f}' {
      HexEscapeReadsBack('x', n, c, tail);
      HexIsPlain(n, 2);
    } else if n < 0x1_0000 {
      HexEscapeReadsBack('u', n, c, tail);
      HexIsPlain(n, 4);
    } else {
      HexEscapeReadsBack('U', n, c, tail);
      HexIsPlain(n, 8);
    }
  }

  // Any character reads back from the way it is written, whatever follows.
  lemma EscapeReadsBack(c: char, isPrint: char -> bool, tail: string)
    requires PrintTable(isPrint)
    ensures ReadChar(Escape(c, isPrint) + tail) == Some((c, |Escape(c, isPrint)|))
    ensures Escape(c, isPrint)[0] != '"'
    ensures forall i :: 0 <= i < |Escape(c, isPrint)| ==> !IsBreak(Escape(c, isPrint)[i])
  {
    if NeedsHex(c, isPrint) {
      HexEscapedReadsBack(c, isPrint, tail);
    }
  }

  // One written character in front of a readable body.
  lemma OneMoreChar(first: string, c: char, rest: string, value: string, tail: string)
    requires first != "" && first[0] != '"'
    requires ReadChar(first + rest) == Some((c, |first|))
    requires ReadBody(rest) == Some((value, tail))
    ensures ReadBody(first + rest) == Some(([c] + value, tail))
  {
    assert (first + rest)[|first|..] == rest;
    assert (first + rest)[0] == first[0];
  }

  lemma {:induction false} BodyReadsBack(s: string, isPrint: char -> bool, tail: string)
    requires PrintTable(isPrint)
    ensures ReadBody(Escaped(s, isPrint) + "\"" + tail) == Some((s, tail))
  {
    if s == "" {
      assert Escaped(s, isPrint) + "\"" + tail == "\"" + tail;
    } else {
      var first, rest := Escape(s[0], isPrint), Escaped(s[1..], isPrint) + "\"" + tail;
      BodyReadsBack(s[1..], isPrint, tail);
      FirstCharReadsBack(s[0], isPrint, rest, s[1..], tail);
      Reassociate(first, Escaped(s[1..], isPrint), "\"", tail);
      assert [s[0]] + s[1..] == s;
    }
  }

  lemma FirstCharReadsBack(c: char, isPrint: char -> bool, rest: string, value: string, tail: string)
    requires PrintTable(isPrint)
    requires ReadBody(rest) == Some((value, tail))
    ensures ReadBody(Escape(c, isPrint) + rest) == Some(([c] + value, tail))
  {
    EscapeReadsBack(c, isPrint, rest);
    OneMoreChar(Escape(c, isPrint), c, rest, value, tail);
  }

  lemma Reassociate(s: string, t: string, u: string, v: string)
    ensures s + (t + u + v) == s + t + u + v
  {
  }

  // Any string of Unicode characters reads back from its quoted form.
  lemma QuoteReadsBack(s: string, isPrint: char -> bool)
    requires PrintTable(isPrint)
    ensures Unquote(Quote(s, isPrint)) == Some(s)
  {
    BodyReadsBack(s, isPrint, "");
    assert Quote(s, isPrint)[1..] == Escaped(s, isPrint) + "\"" + "";
  }

  lemma {:induction false} EscapedStaysOnLine(s: string, isPrint: char -> bool)
    requires PrintTable(isPrint)
    ensures forall i :: 0 <= i < |Escaped(s, isPrint)| ==> !IsBreak(Escaped(s, isPrint)[i])
  {
    if s != "" {
      EscapeReadsBack(s[0], isPrint, "");
      EscapedStaysOnLine(s[1..], isPrint);
    }
  }

  // A quoted value never leaves its line.
  lemma QuoteStaysOnLine(s: string, isPrint: char -> bool)
    requires PrintTable(isPrint)
    ensures forall i :: 0 <= i < |Quote(s, isPrint)| ==> !IsBreak(Quote(s, isPrint)[i])
  {
    EscapedStaysOnLine(s, isPrint);
  }

  lemma QuoteHasNoNewline(s: string, isPrint: char -> bool)
    requires PrintTable(isPrint)
    ensures '\n' !in Quote(s, isPrint)
  {
    QuoteStaysOnLine(s, isPrint);
  }
}
