/** Go's url.QueryEscape and url.QueryUnescape, on Unicode strings and their UTF-8 bytes. */
module Escaping {
  import opened Wrappers
  import opened Text

  type Byte = b: int | 0 <= b < 256

  /** The characters QueryEscape leaves alone: ASCII letters and digits and "-_.~". */
  predicate Unreserved(c: char) {
    'a' <= c <= 'z' || 'A' <= c <= 'Z' || '0' <= c <= '9' || c == '-' || c == '_' || c == '.' || c == '~'
  }

  /** The UTF-8 encoding of one character. */
  function Utf8Bytes(c: char): (r: seq<Byte>)
    ensures |r| == Utf8Width(c)
    ensures c as int < 0x80 ==> r == [c as int]
  {
    var n := c as int;
    if n < 0x80 then [n]
    else if n < 0x800 then [0xC0 + n / 64, 0x80 + n % 64]
    else if n < 0x10000 then [0xE0 + n / 4096, 0x80 + n / 64 % 64, 0x80 + n % 64]
    else [0xF0 + n / 262144, 0x80 + n / 4096 % 64, 0x80 + n / 64 % 64, 0x80 + n % 64]
  }

  predicate IsHex(c: char) {
    '0' <= c <= '9' || 'a' <= c <= 'f' || 'A' <= c <= 'F'
  }

  function HexValue(c: char): (d: nat)
    requires IsHex(c)
    ensures d < 16
  {
    if '0' <= c <= '9' then c as int - '0' as int
    else if 'a' <= c <= 'f' then c as int - 'a' as int + 10
    else c as int - 'A' as int + 10
  }

  /** An upper-case hexadecimal digit, as escaping writes them. */
  function HexDigit(d: nat): (c: char)
    requires d < 16
    ensures IsHex(c) && HexValue(c) == d && Unreserved(c)
  {
    if d < 10 then ('0' as int + d) as char else ('A' as int + d - 10) as char
  }

  /** "%XY" for each byte. */
  function PercentBytes(bs: seq<Byte>): (r: string)
    ensures |r| == 3 * |bs|
  {
    if bs == [] then [] else ['%', HexDigit(bs[0] / 16), HexDigit(bs[0] % 16)] + PercentBytes(bs[1..])
  }

  /** QueryEscape of one character: kept when unreserved, '+' for a space, and the escaped
      bytes of its UTF-8 encoding otherwise. */
  function EscapeChar(c: char): (r: string)
    ensures r != []
  {
    if Unreserved(c) then [c] else if c == ' ' then "+" else PercentBytes(Utf8Bytes(c))
  }

  /** url.QueryEscape. */
  function QueryEscape(s: string): string {
    if s == [] then [] else EscapeChar(s[0]) + QueryEscape(s[1..])
  }

  /** The characters escaping writes: unreserved ones, '+' and '%'. */
  predicate EscapedText(r: string) {
    forall i :: 0 <= i < |r| ==> r[i] == '%' || r[i] == '+' || Unreserved(r[i])
  }

  lemma EscapedConcat(a: string, b: string)
    requires EscapedText(a) && EscapedText(b)
    ensures EscapedText(a + b)
  {
    forall i | 0 <= i < |a + b| ensures (a + b)[i] == '%' || (a + b)[i] == '+' || Unreserved((a + b)[i]) {
      if i < |a| { assert (a + b)[i] == a[i]; } else { assert (a + b)[i] == b[i - |a|]; }
    }
  }

  lemma {:induction false} PercentBytesEscaped(bs: seq<Byte>)
    ensures EscapedText(PercentBytes(bs))
  {
    if bs != [] {
      PercentBytesEscaped(bs[1..]);
      EscapedConcat(['%', HexDigit(bs[0] / 16), HexDigit(bs[0] % 16)], PercentBytes(bs[1..]));
    }
  }

  /** The escape of any text holds only unreserved characters, '+' and '%', so neither '&'
      nor '=' can appear in it and the pairs of an encoded query stay apart. */
  lemma {:induction false} QueryEscapeAlphabet(s: string)
    ensures EscapedText(QueryEscape(s))
    ensures '&' !in QueryEscape(s) && '=' !in QueryEscape(s)
  {
    if s != [] {
      QueryEscapeAlphabet(s[1..]);
      if !Unreserved(s[0]) && s[0] != ' ' {
        PercentBytesEscaped(Utf8Bytes(s[0]));
      }
      EscapedConcat(EscapeChar(s[0]), QueryEscape(s[1..]));
    }
    var r := QueryEscape(s);
    assert forall i :: 0 <= i < |r| ==> r[i] != '&' && r[i] != '=';
  }

  /** url.QueryUnescape: "%XX" becomes the character with that code and "+" a space; a "%"
      not followed by two hex digits is an error, in which case the result is "". Each escape
      decodes to one character (multi-byte UTF-8 sequences are not reassembled). */
  function QueryUnescape(s: string): (r: Option<string>)
    ensures r.Some? ==> |r.value| <= |s|
    decreases |s|
  {
    if s == [] then Some("")
    else if s[0] == '%' then
      if |s| >= 3 && IsHex(s[1]) && IsHex(s[2]) then
        match QueryUnescape(s[3..])
        case None => None
        case Some(t) => Some([(16 * HexValue(s[1]) + HexValue(s[2])) as char] + t)
      else None
    else
      match QueryUnescape(s[1..])
      case None => None
      case Some(t) => Some([if s[0] == '+' then ' ' else s[0]] + t)
  }

  /** A string without escapes or plus signs unescapes to itself. */
  lemma {:induction false} QueryUnescapePlain(s: string)
    requires '%' !in s && '+' !in s
    ensures QueryUnescape(s) == Some(s)
    decreases |s|
  {
    if s != [] {
      assert '%' !in s[1..] && '+' !in s[1..];
      QueryUnescapePlain(s[1..]);
      assert s == [s[0]] + s[1..];
    }
  }

  /** A character other than '%' in front of anything unescapes to itself, '+' to a space. */
  lemma UnescapeLiteral(c: char, t: string)
    requires c != '%' && QueryUnescape(t).Some?
    ensures QueryUnescape([c] + t) == Some([if c == '+' then ' ' else c] + QueryUnescape(t).value)
  {
    assert ([c] + t)[1..] == t;
  }

  /** "%XY" in front of anything unescapes to the character with code XY. */
  lemma UnescapeTriple(x: char, y: char, t: string)
    requires IsHex(x) && IsHex(y) && QueryUnescape(t).Some?
    ensures QueryUnescape(['%', x, y] + t) == Some([(16 * HexValue(x) + HexValue(y)) as char] + QueryUnescape(t).value)
  {
    assert (['%', x, y] + t)[3..] == t;
  }

  /** Unescaping one escaped ASCII character in front of anything gives the character back. */
  lemma UnescapeChar(c: char, t: string)
    requires c as int < 0x80 && QueryUnescape(t).Some?
    ensures QueryUnescape(EscapeChar(c) + t) == Some([c] + QueryUnescape(t).value)
  {
    if Unreserved(c) {
      UnescapeLiteral(c, t);
    } else if c == ' ' {
      UnescapeLiteral('+', t);
    } else {
      var x, y := HexDigit(c as int / 16), HexDigit(c as int % 16);
      assert EscapeChar(c) == ['%', x, y];
      UnescapeTriple(x, y, t);
    }
  }

  /** QueryUnescape undoes QueryEscape on ASCII text. */
  lemma {:induction false} UnescapeEscape(s: string)
    requires forall i :: 0 <= i < |s| ==> s[i] as int < 0x80
    ensures QueryUnescape(QueryEscape(s)) == Some(s)
  {
    if s != [] {
      UnescapeEscape(s[1..]);
      UnescapeChar(s[0], QueryEscape(s[1..]));
      assert s == [s[0]] + s[1..];
    }
  }

  /** A string of unreserved characters is its own escape. */
  lemma {:induction false} EscapeUnreserved(s: string)
    requires forall i :: 0 <= i < |s| ==> Unreserved(s[i])
    ensures QueryEscape(s) == s
  {
    if s != [] {
      EscapeUnreserved(s[1..]);
      assert s == [s[0]] + s[1..];
    }
  }
}
