/** What sanitizing and title case make of a text, said of its characters and words. */
module FolderWords {
  import opened Common
  import opened FolderText

  // Trimming ------------------------------------------------------------------------------------------

  predicate Blank(s: string) { forall i :: 0 <= i < |s| ==> IsWhitespace(s[i]) }

  lemma {:induction false} TrimStartIsSuffix(s: string) returns (a: string)
    ensures s == a + TrimStart(s) && Blank(a)
    ensures TrimStart(s) != "" ==> !IsWhitespace(TrimStart(s)[0])
  {
    a := "";
    if s != [] && IsWhitespace(s[0]) {
      var more := TrimStartIsSuffix(s[1..]);
      a := [s[0]] + more;
    }
  }

  lemma {:induction false} TrimEndIsPrefix(s: string) returns (b: string)
    ensures s == TrimEnd(s) + b && Blank(b)
    ensures TrimEnd(s) != "" ==> !IsWhitespace(TrimEnd(s)[|TrimEnd(s)| - 1])
  {
    b := "";
    if s != [] && IsWhitespace(s[|s| - 1]) {
      var more := TrimEndIsPrefix(s[..|s| - 1]);
      b := more + [s[|s| - 1]];
      assert s == s[..|s| - 1] + [s[|s| - 1]];
    }
  }

  /** Trimming takes away white space at both ends, all of it, and nothing else. */
  lemma TrimIsExact(s: string) returns (a: string, b: string)
    ensures s == a + Trim(s) + b && Blank(a) && Blank(b)
    ensures Trim(s) != "" ==> !IsWhitespace(Trim(s)[0]) && !IsWhitespace(Trim(s)[|Trim(s)| - 1])
  {
    a := TrimStartIsSuffix(s);
    b := TrimEndIsPrefix(TrimStart(s));
  }

  // Words -----------------------------------------------------------------------------------------------

  lemma {:induction false} FirstWordBefore(x: string, w: char, y: string)
    requires IsWhitespace(w)
    ensures FirstWord(x + ([w] + y)) == FirstWord(x)
  {
    if x == [] {
      assert x + ([w] + y) == [w] + y;
    } else {
      assert (x + ([w] + y))[1..] == x[1..] + ([w] + y);
      FirstWordBefore(x[1..], w, y);
    }
  }

  /** White space between two texts separates their words. */
  lemma {:induction false} WordsSeparate(x: string, w: char, y: string)
    requires IsWhitespace(w)
    ensures Words(x + ([w] + y)) == Words(x) + Words(y)
    decreases |x|
  {
    var whole := x + ([w] + y);
    if x == [] {
      assert whole == [w] + y && whole[1..] == y;
    } else if IsWhitespace(x[0]) {
      assert whole[1..] == x[1..] + ([w] + y);
      WordsSeparate(x[1..], w, y);
    } else {
      var f := FirstWord(x);
      FirstWordBefore(x, w, y);
      assert whole[|f|..] == x[|f|..] + ([w] + y);
      WordsSeparate(x[|f|..], w, y);
      assert Words(whole) == [f] + Words(whole[|f|..]);
    }
  }

  lemma {:induction false} WordsBehindBlank(a: string, x: string)
    requires Blank(a)
    ensures Words(a + x) == Words(x)
  {
    if a == [] {
      assert a + x == x;
    } else {
      assert (a + x)[1..] == a[1..] + x;
      WordsBehindBlank(a[1..], x);
    }
  }

  lemma {:induction false} WordsBeforeBlank(x: string, b: string)
    requires Blank(b)
    ensures Words(x + b) == Words(x)
  {
    if b == [] {
      assert x + b == x;
    } else {
      assert x + b == x + ([b[0]] + b[1..]);
      WordsSeparate(x, b[0], b[1..]);
      WordsBehindBlank(b[1..], "");
      assert b[1..] + "" == b[1..];
    }
  }

  lemma {:induction false} OneWord(w: string)
    requires w != "" && forall i :: 0 <= i < |w| ==> !IsWhitespace(w[i])
    ensures FirstWord(w) == w && Words(w) == [w]
  {
    if |w| > 1 {
      OneWord(w[1..]);
    } else {
      assert FirstWord(w[1..]) == [];
    }
    assert w == [w[0]] + w[1..] && w[|w|..] == "";
  }

  lemma {:induction false} WordsOfJoined(words: seq<string>)
    requires forall k :: 0 <= k < |words| ==> words[k] != "" && forall i :: 0 <= i < |words[k]| ==> !IsWhitespace(words[k][i])
    ensures Words(Join(words, ' ')) == words
  {
    if words != [] {
      OneWord(words[0]);
      if |words| > 1 {
        var rest := words[1..];
        assert forall k :: 0 <= k < |rest| ==> rest[k] == words[k + 1];
        WordsOfJoined(rest);
        WordsSeparate(words[0], ' ', Join(rest, ' '));
        assert words == [words[0]] + rest;
      }
    }
  }

  // Sanitizing ------------------------------------------------------------------------------------------

  /** What stands between words: white space, control characters, and these. */
  predicate Separator(c: char) {
    IsWhitespace(c) || c as int < 0x20 || 0x7F <= c as int <= 0x9F || c in ".:;\"'`*?<>|\\"
  }

  lemma SeparatorIff(c: char)
    ensures Separator(c) <==> IsWhitespace(c) || IsControl(c) || Hostile(c)
  {
    var list := ".:;\"'`*?<>|\\";
    assert Hostile(c) ==> c in list by {
      assert list[0] == '.' && list[1] == ':' && list[2] == ';' && list[3] == '"' && list[4] == '\'' && list[5] == '`';
      assert list[6] == '*' && list[7] == '?' && list[8] == '<' && list[9] == '>' && list[10] == '|' && list[11] == '\\';
    }
  }

  lemma RawLast(s: string, init: string, e: string)
    requires s != "" && init == s[..|s| - 1] && e == SanitizeChar(s[|s| - 1])
    ensures SanitizeRaw(s) == SanitizeRaw(init) + e
  {
  }

  lemma Associates(a: string, b: string, c: string)
    ensures (a + b) + c == a + (b + c)
  {
  }

  lemma {:induction false} RawConcat(a: string, b: string)
    ensures SanitizeRaw(a + b) == SanitizeRaw(a) + SanitizeRaw(b)
    decreases |b|
  {
    if b == [] {
      assert a + b == a && SanitizeRaw(b) == [];
    } else {
      var whole, init, e := a + b, b[..|b| - 1], SanitizeChar(b[|b| - 1]);
      assert whole[..|whole| - 1] == a + init && whole[|whole| - 1] == b[|b| - 1];
      RawConcat(a, init);
      RawLast(whole, a + init, e);
      RawLast(b, init, e);
      Associates(SanitizeRaw(a), SanitizeRaw(init), e);
    }
  }

  lemma {:induction false} RawOfBlank(a: string)
    requires Blank(a)
    ensures Blank(SanitizeRaw(a))
  {
    if a != [] { RawOfBlank(a[..|a| - 1]); }
  }

  /** The words of a sanitized text. */
  function Parts(s: string): seq<string> { Words(Sanitize(s)) }

  lemma RawOne(c: char)
    ensures SanitizeRaw([c]) == SanitizeChar(c)
  {
    assert [c][..0] == [] && SanitizeRaw([]) == [];
    assert [] + SanitizeChar(c) == SanitizeChar(c);
  }

  lemma RawAround(a: string, c: char, b: string)
    ensures SanitizeRaw(a + ([c] + b)) == SanitizeRaw(a) + (SanitizeChar(c) + SanitizeRaw(b))
  {
    RawConcat(a, [c] + b);
    RawConcat([c], b);
    RawOne(c);
  }

  /** Blank ends do not change the words. */
  lemma RawWordsTrimmed(a: string, t: string, b: string)
    requires Blank(a) && Blank(b)
    ensures Words(SanitizeRaw(a + (t + b))) == Words(SanitizeRaw(t))
  {
    RawConcat(a, t + b);
    RawConcat(t, b);
    RawOfBlank(a);
    RawOfBlank(b);
    WordsBehindBlank(SanitizeRaw(a), SanitizeRaw(t) + SanitizeRaw(b));
    WordsBeforeBlank(SanitizeRaw(t), SanitizeRaw(b));
  }

  lemma RawWordsComeBack(t: string)
    ensures Words(Join(Words(SanitizeRaw(t)), ' ')) == Words(SanitizeRaw(t))
  {
    var words := Words(SanitizeRaw(t));
    RawIsPlainOrSpace(t);
    WordsArePlain(SanitizeRaw(t));
    forall k | 0 <= k < |words| ensures words[k] != "" && forall i :: 0 <= i < |words[k]| ==> !IsWhitespace(words[k][i]) {
      assert PlainWord(words[k]);
    }
    WordsOfJoined(words);
  }

  lemma PartsAreRaw(s: string)
    ensures Parts(s) == Words(SanitizeRaw(s)) && Sanitize(s) == Join(Parts(s), ' ')
  {
    var a, b := TrimIsExact(s);
    assert s == a + (Trim(s) + b);
    RawWordsTrimmed(a, Trim(s), b);
    RawWordsComeBack(Trim(s));
  }

  /**
   * Sanitizing, once and for all: a text is its words with single spaces between them; a separator stands
   * between two texts' words, an ampersand puts And there, and a text without either is one word.
   */
  lemma SanitizeIsItsWords(s: string)
    ensures Sanitize(s) == Join(Parts(s), ' ') && Sanitize("") == ""
  {
    PartsAreRaw(s);
  }

  lemma SanitizeSeparates(a: string, c: char, b: string)
    requires Separator(c) && c != '&'
    ensures Parts(a + ([c] + b)) == Parts(a) + Parts(b)
  {
    PartsAreRaw(a);
    PartsAreRaw(b);
    PartsAreRaw(a + ([c] + b));
    RawAround(a, c, b);
    SeparatorIsBlank(c);
    WordsSeparate(SanitizeRaw(a), SanitizeChar(c)[0], SanitizeRaw(b));
  }

  lemma SeparatorIsBlank(c: char)
    requires Separator(c) && c != '&'
    ensures |SanitizeChar(c)| == 1 && IsWhitespace(SanitizeChar(c)[0]) && SanitizeChar(c) == [SanitizeChar(c)[0]]
  {
    SeparatorIff(c);
  }

  lemma AmpersandIsAnd(a: string, b: string)
    ensures Parts(a + (['&'] + b)) == Parts(a) + ["And"] + Parts(b)
  {
    PartsAreRaw(a);
    PartsAreRaw(b);
    PartsAreRaw(a + (['&'] + b));
    RawAround(a, '&', b);
    AndBetween(SanitizeRaw(a), SanitizeRaw(b));
  }

  lemma AndBetween(x: string, y: string)
    ensures Words(x + (" And " + y)) == Words(x) + ["And"] + Words(y)
  {
    assert " And " + y == [' '] + ("And" + ([' '] + y));
    WordsSeparate(x, ' ', "And" + ([' '] + y));
    WordsSeparate("And", ' ', y);
    OneWord("And");
  }

  lemma PlainTextIsOneWord(w: string)
    requires w != "" && forall i :: 0 <= i < |w| ==> !Separator(w[i]) && w[i] != '&'
    ensures Parts(w) == [w] && Sanitize(w) == w
  {
    forall i | 0 <= i < |w| ensures Plain(w[i]) { SeparatorIff(w[i]); }
    RawKeepsTidy(w);
    PartsAreRaw(w);
    OneWord(w);
  }

  // Title case ------------------------------------------------------------------------------------------

  predicate Lowercase(c: char) { 'a' <= c <= 'z' }

  predicate Uppercase(c: char) { 'A' <= c <= 'Z' }

  /** r is c in upper case, or in lower case. */
  predicate Cased(r: char, c: char, upper: bool) {
    if upper && Lowercase(c) then r as int == c as int - 32
    else if !upper && Uppercase(c) then r as int == c as int + 32
    else r == c
  }

  /** A word begins at the start and behind a space, a hyphen or an underscore. */
  predicate Begins(s: string, i: nat)
    requires i < |s|
  {
    i == 0 || s[i - 1] == ' ' || s[i - 1] == '-' || s[i - 1] == '_'
  }

  /** Title case character by character. */
  lemma TitleCaseStep(t: Casing, s: string, capitalize: bool)
    requires AsciiCasing(t) && Ascii(s) && s != ""
    ensures exists r: char :: Cased(r, s[0], capitalize) && TitleCase(t, s, capitalize) == [r] + TitleCase(t, s[1..], StartsWord(s[0]))
  {
    assert IsAscii(s[0]);
    var r := if StartsWord(s[0]) then s[0] else if capitalize then UpperChar(s[0]) else LowerChar(s[0]);
    assert Cased(r, s[0], capitalize);
    assert TitleCase(t, s, capitalize) == [r] + TitleCase(t, s[1..], StartsWord(s[0]));
  }

  /** In ASCII text the first letter of every word is in upper case, and the others in lower case. */
  lemma {:induction false} TitleCaseAt(t: Casing, s: string, capitalize: bool, i: nat)
    requires AsciiCasing(t) && Ascii(s) && i < |s|
    ensures i < |TitleCase(t, s, capitalize)|
    ensures Cased(TitleCase(t, s, capitalize)[i], s[i], if i == 0 then capitalize else Begins(s, i))
  {
    TitleCaseStep(t, s, capitalize);
    if i > 0 {
      var rest := s[1..];
      assert forall k :: 0 <= k < |rest| ==> rest[k] == s[k + 1];
      TitleCaseAt(t, rest, StartsWord(s[0]), i - 1);
      assert TitleCase(t, s, capitalize)[i] == TitleCase(t, rest, StartsWord(s[0]))[i - 1];
    }
  }
}
