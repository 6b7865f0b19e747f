/** Reading JSON strings: what an escaped text means. */
module JsonStrings {
  import opened Common
  import opened JsonRepair

  /** The value of a hexadecimal digit, if it is one. */
  function HexValue(c: char): Option<nat> {
    if '0' <= c <= '9' then Some(c as int - '0' as int)
    else if 'a' <= c <= 'f' then Some(c as int - 'a' as int + 10)
    else if 'A' <= c <= 'F' then Some(c as int - 'A' as int + 10)
    else None
  }

  /** The value of n hexadecimal digits at the start of s. */
  function HexNumber(s: string, n: nat): Option<nat> {
    if n == 0 then Some(0)
    else if |s| < n then None
    else
      match (HexNumber(s[..n - 1], n - 1), HexValue(s[n - 1]))
      case (Some(high), Some(low)) => Some(16 * high + low)
      case _ => None
  }

  /** A code unit written as backslash, u and four digits. */
  function CodeUnit(s: string): Option<nat> {
    if |s| >= 6 && s[0] == '\\' && s[1] == 'u' then HexNumber(s[2..6], 4) else None
  }

  /** What stands behind a backslash, other than u, and the character it means. */
  function ShortEscape(c: char): Option<char> {
    if c == '"' || c == '\\' || c == '/' then Some(c)
    else if c == 'b' then Some(8 as char)
    else if c == 'f' then Some(12 as char)
    else if c == 'n' then Some(10 as char)
    else if c == 'r' then Some(13 as char)
    else if c == 't' then Some(9 as char)
    else None
  }

  /** One character of a string as section 7 of RFC 8259 writes it, and what follows; surrogates come in pairs. */
  function ReadChar(s: string): Option<(char, string)>
    requires s != []
  {
    if s[0] != '\\' then (if IsControl(s[0]) then None else Some((s[0], s[1..])))
    else if |s| >= 2 && ShortEscape(s[1]).Some? then Some((ShortEscape(s[1]).value, s[2..]))
    else
      match CodeUnit(s)
      case None => None
      case Some(u) =>
        if u < 0xD800 || 0xE000 <= u < 0x1_0000 then Some((u as char, s[6..]))
        else if u < 0xDC00 then ReadPair(u, s[6..])
        else None
  }

  function ReadPair(high: nat, s: string): Option<(char, string)>
    requires 0xD800 <= high < 0xDC00
  {
    match CodeUnit(s)
    case None => None
    case Some(low) =>
      if 0xDC00 <= low < 0xE000
      then Some(((0x1_0000 + 0x400 * (high - 0xD800) + (low - 0xDC00)) as char, s[6..]))
      else None
  }

  lemma ReadCharAdvances(s: string)
    requires s != []
    ensures ReadChar(s).Some? ==> |ReadChar(s).value.1| < |s|
  {
  }

  /** Reads a string behind its opening quote: the text and what follows the closing quote. */
  function ReadString(s: string): Option<(string, string)>
    decreases |s|
  {
    if s == [] then None
    else if s[0] == '"' then Some(("", s[1..]))
    else
      match ReadChar(s)
      case None => None
      case Some(first) =>
        ReadCharAdvances(s);
        match ReadString(first.1)
        case Some(r) => Some(([first.0] + r.0, r.1))
        case None => None
  }

  lemma HexReadsBack(n: nat)
    requires n < 16
    ensures HexValue(HexDigit(n)) == Some(n)
  {
  }

  lemma ControlReadsBack(c: char, more: string)
    requires IsControl(c)
    ensures CodeUnit(EscapeChar(c) + more) == Some(c as int) && (EscapeChar(c) + more)[6..] == more
  {
    var e := EscapeChar(c);
    var s := e + more;
    var h, l := HexDigit(c as int / 16), HexDigit(c as int % 16);
    assert s[2..6] == ['0', '0', h, l];
    HexReadsBack(c as int / 16);
    HexReadsBack(c as int % 16);
    FourDigits('0', '0', h, l);
    assert HexValue('0') == Some(0);
  }

  lemma FourDigits(a: char, b: char, c: char, d: char)
    requires HexValue(a).Some? && HexValue(b).Some? && HexValue(c).Some? && HexValue(d).Some?
    ensures HexNumber([a, b, c, d], 4)
         == Some(16 * (16 * (16 * HexValue(a).value + HexValue(b).value) + HexValue(c).value) + HexValue(d).value)
  {
    assert [a][..0] == [] && HexNumber([], 0) == Some(0);
    OneDigit([a], 1);
    assert [a, b][..1] == [a];
    OneDigit([a, b], 2);
    assert [a, b, c][..2] == [a, b];
    OneDigit([a, b, c], 3);
    assert [a, b, c, d][..3] == [a, b, c];
    OneDigit([a, b, c, d], 4);
  }

  lemma OneDigit(s: string, n: nat)
    requires 0 < n == |s| && HexNumber(s[..n - 1], n - 1).Some? && HexValue(s[n - 1]).Some?
    ensures HexNumber(s, n) == Some(16 * HexNumber(s[..n - 1], n - 1).value + HexValue(s[n - 1]).value)
  {
  }

  lemma ReadsCharBack(c: char, more: string)
    ensures ReadChar(EscapeChar(c) + more) == Some((c, more))
    ensures (EscapeChar(c) + more)[0] != '"'
  {
    var e := EscapeChar(c);
    var s := e + more;
    assert s[|e|..] == more && s[..|e|] == e;
    if IsControl(c) {
      ControlReadsBack(c, more);
      assert s[1] == 'u';
    } else if |e| == 2 {
      assert s[2..] == more && s[1] == c;
    } else {
      assert s[1..] == more;
    }
  }

  /** Reading the escaped form gives the raw text back, whatever the text. */
  lemma {:induction false} EscapedReadsBack(text: string, after: string)
    ensures ReadString(Closed(Escape(text), after)) == Some((text, after))
  {
    if text == [] {
      assert Closed(Escape(text), after) == ['"'] + after;
    } else {
      EscapeStep(text, after);
      ReadsCharBack(text[0], Closed(Escape(text[1..]), after));
      EscapedReadsBack(text[1..], after);
      assert text == [text[0]] + text[1..];
    }
  }
}
