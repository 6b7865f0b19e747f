/** Splitting, joining, sanitizing and title-casing the text of folder paths. */
module FolderText {
  import opened Common

  // Case ------------------------------------------------------------------------------------------

  function LowerChar(c: char): char { if 'A' <= c <= 'Z' then (c as int + 32) as char else c }

  function UpperChar(c: char): char { if 'a' <= c <= 'z' then (c as int - 32) as char else c }

  predicate IsLetter(c: char) { 'A' <= c <= 'Z' || 'a' <= c <= 'z' }

  function Lower(s: string): (r: string)
    ensures |r| == |s| && forall i :: 0 <= i < |s| ==> r[i] == LowerChar(s[i])
  {
    if s == [] then [] else [LowerChar(s[0])] + Lower(s[1..])
  }

  /** eq_ignore_ascii_case. */
  predicate Same(a: string, b: string) { Lower(a) == Lower(b) }

  lemma SameConcat(a: string, b: string, a': string, b': string)
    requires Same(a, a') && Same(b, b')
    ensures Same(a + b, a' + b')
  {
    LowerConcat(a, b);
    LowerConcat(a', b');
  }

  lemma LowerConcat(a: string, b: string)
    ensures Lower(a + b) == Lower(a) + Lower(b)
  {
  }

  /** The Unicode case mappings. A character may map to several. */
  datatype Casing = Casing(upper: char -> string, lower: char -> string)

  predicate IsAscii(c: char) { c as int < 128 }

  predicate Ascii(s: string) { forall i :: 0 <= i < |s| ==> IsAscii(s[i]) }

  /** The mappings of ASCII characters. */
  ghost predicate AsciiCasing(t: Casing) {
    forall c: char :: IsAscii(c) ==> t.upper(c) == [UpperChar(c)] && t.lower(c) == [LowerChar(c)]
  }

  // Split and join --------------------------------------------------------------------------------

  function Split(s: string, d: char): (r: seq<string>)
    ensures r != []
  {
    if s == [] then [""]
    else
      var rest := Split(s[1..], d);
      if s[0] == d then [""] + rest else [[s[0]] + rest[0]] + rest[1..]
  }

  function Join(parts: seq<string>, d: char): string {
    if parts == [] then ""
    else if |parts| == 1 then parts[0]
    else parts[0] + ([d] + Join(parts[1..], d))
  }

  function NonEmpty(parts: seq<string>): seq<string> {
    if parts == [] then [] else (if parts[0] == "" then [] else [parts[0]]) + NonEmpty(parts[1..])
  }

  lemma {:induction false} SplitParts(s: string, d: char, i: nat)
    requires i < |Split(s, d)|
    ensures d !in Split(s, d)[i]
    ensures Ascii(s) ==> Ascii(Split(s, d)[i])
  {
    if s != [] {
      if s[0] == d {
        if i > 0 { SplitParts(s[1..], d, i - 1); }
      } else {
        SplitParts(s[1..], d, i);
      }
    }
  }

  lemma {:induction false} SplitPrefix(part: string, rest: string, d: char)
    requires d !in part
    ensures Split(part + ([d] + rest), d) == [part] + Split(rest, d)
    ensures Split(part, d) == [part]
  {
    if part == [] {
      assert part + ([d] + rest) == [d] + rest && ([d] + rest)[1..] == rest;
    } else {
      assert (part + ([d] + rest))[1..] == part[1..] + ([d] + rest);
      SplitPrefix(part[1..], rest, d);
      assert [part[0]] + part[1..] == part;
    }
  }

  /** Splitting undoes joining when no part holds the delimiter. */
  lemma {:induction false} SplitJoin(parts: seq<string>, d: char)
    requires parts != [] && forall i :: 0 <= i < |parts| ==> d !in parts[i]
    ensures Split(Join(parts, d), d) == parts
  {
    if |parts| == 1 {
      SplitPrefix(parts[0], "", d);
    } else {
      SplitJoin(parts[1..], d);
      SplitPrefix(parts[0], Join(parts[1..], d), d);
    }
  }

  /** Joining undoes splitting. */
  lemma {:induction false} JoinSplit(s: string, d: char)
    ensures Join(Split(s, d), d) == s
  {
    if s != [] {
      JoinSplit(s[1..], d);
      var rest := Split(s[1..], d);
      if s[0] == d {
        assert ([""] + rest)[1..] == rest;
        assert Join([""] + rest, d) == [d] + s[1..];
      } else {
        var parts := [[s[0]] + rest[0]] + rest[1..];
        assert parts[1..] == rest[1..];
        if |rest| > 1 { assert Join(parts, d) == [s[0]] + (rest[0] + ([d] + Join(rest[1..], d))); }
      }
    }
  }

  lemma {:induction false} NonEmptyParts(parts: seq<string>)
    ensures forall p :: p in NonEmpty(parts) <==> p in parts && p != ""
    ensures (forall i :: 0 <= i < |parts| ==> parts[i] != "") ==> NonEmpty(parts) == parts
  {
    if parts != [] {
      NonEmptyParts(parts[1..]);
      assert parts == [parts[0]] + parts[1..];
    }
  }

  // Sanitizing ------------------------------------------------------------------------------------

  predicate Hostile(c: char) {
    c == '.' || c == ':' || c == ';' || c == '"' || c == '\'' || c == '`' || c == '*' || c == '?'
    || c == '<' || c == '>' || c == '|' || c == '\\'
  }

  /** The Unicode control characters. */
  predicate IsControl(c: char) { c as int < 0x20 || 0x7F <= c as int <= 0x9F }

  function SanitizeChar(c: char): string {
    if c == '&' then " And " else if Hostile(c) || IsControl(c) then " " else [c]
  }

  function SanitizeRaw(s: string): string {
    if s == [] then [] else SanitizeRaw(s[..|s| - 1]) + SanitizeChar(s[|s| - 1])
  }

  function TrimStart(s: string): string { if s != [] && IsWhitespace(s[0]) then TrimStart(s[1..]) else s }

  function TrimEnd(s: string): string { if s != [] && IsWhitespace(s[|s| - 1]) then TrimEnd(s[..|s| - 1]) else s }

  function Trim(s: string): string { TrimEnd(TrimStart(s)) }

  /** The characters up to the first white space. */
  function FirstWord(s: string): (w: string)
    ensures |w| <= |s| && w == s[..|w|]
    ensures s != [] && !IsWhitespace(s[0]) ==> w != []
  {
    if s == [] || IsWhitespace(s[0]) then [] else [s[0]] + FirstWord(s[1..])
  }

  /** split_whitespace. */
  function Words(s: string): seq<string>
    decreases |s|
  {
    if s == [] then []
    else if IsWhitespace(s[0]) then Words(s[1..])
    else [FirstWord(s)] + Words(s[|FirstWord(s)|..])
  }

  function Sanitize(s: string): string { Join(Words(SanitizeRaw(Trim(s))), ' ') }

  method SanitizeFolderSegmentForImap(segment: string) returns (r: string)
    ensures r == Sanitize(segment)
  {
    var trimmed := Trim(segment);
    var out := "";
    for i := 0 to |trimmed|
      invariant out == SanitizeRaw(trimmed[..i])
    {
      var ch := trimmed[i];
      assert trimmed[..i + 1][..i] == trimmed[..i];
      if ch == '&' {
        out := out + " And ";
      } else if Hostile(ch) || IsControl(ch) {
        out := out + [' '];
      } else {
        out := out + [ch];
      }
    }
    assert trimmed[..|trimmed|] == trimmed;
    r := Join(Words(out), ' ');
  }

  /** A character that sanitizing keeps and that is not white space. */
  predicate Plain(c: char) { !IsWhitespace(c) && !Hostile(c) && !IsControl(c) && c != '&' }

  /** Plain characters and single spaces; no space at the end, nor at the start if one went before. */
  predicate TidyFrom(s: string, afterSpace: bool) {
    if s == [] then !afterSpace
    else if s[0] == ' ' then !afterSpace && TidyFrom(s[1..], true)
    else Plain(s[0]) && TidyFrom(s[1..], false)
  }

  /** Words of plain characters with one space between them. */
  predicate Tidy(s: string) { s == [] || TidyFrom(s, true) }

  predicate PlainWord(w: string) { w != [] && forall i :: 0 <= i < |w| ==> Plain(w[i]) }

  predicate PlainOrSpace(s: string) { forall i :: 0 <= i < |s| ==> Plain(s[i]) || IsWhitespace(s[i]) }

  lemma {:induction false} RawIsPlainOrSpace(s: string)
    ensures PlainOrSpace(SanitizeRaw(s))
  {
    if s != [] {
      RawIsPlainOrSpace(s[..|s| - 1]);
      var c := s[|s| - 1];
      assert PlainOrSpace(" And ") && PlainOrSpace(" ") && PlainOrSpace(SanitizeChar(c));
    }
  }

  lemma {:induction false} FirstWordIsPlain(s: string)
    requires PlainOrSpace(s)
    ensures forall i :: 0 <= i < |FirstWord(s)| ==> Plain(FirstWord(s)[i])
  {
    if s != [] && !IsWhitespace(s[0]) { FirstWordIsPlain(s[1..]); }
  }

  lemma {:induction false} WordsArePlain(s: string)
    requires PlainOrSpace(s)
    ensures forall k :: 0 <= k < |Words(s)| ==> PlainWord(Words(s)[k])
    decreases |s|
  {
    if s != [] {
      if IsWhitespace(s[0]) {
        WordsArePlain(s[1..]);
      } else {
        FirstWordIsPlain(s);
        WordsArePlain(s[|FirstWord(s)|..]);
      }
    }
  }

  lemma {:induction false} TidyWord(w: string, rest: string, afterSpace: bool)
    requires PlainWord(w)
    ensures TidyFrom(w + rest, afterSpace) == TidyFrom(rest, false)
  {
    assert (w + rest)[1..] == w[1..] + rest;
    if |w| == 1 {
      assert w[1..] + rest == rest;
    } else {
      TidyWord(w[1..], rest, false);
    }
  }

  lemma {:induction false} JoinedWordsAreTidy(words: seq<string>)
    requires words != [] && forall k :: 0 <= k < |words| ==> PlainWord(words[k])
    ensures TidyFrom(Join(words, ' '), true)
  {
    if |words| == 1 {
      TidyWord(words[0], [], true);
      assert words[0] + [] == words[0];
    } else {
      JoinedWordsAreTidy(words[1..]);
      var rest := Join(words[1..], ' ');
      TidyWord(words[0], [' '] + rest, true);
      assert ([' '] + rest)[1..] == rest;
    }
  }

  /** What sanitizing returns is tidy. */
  lemma SanitizedIsTidy(s: string)
    ensures Tidy(Sanitize(s))
  {
    var raw := SanitizeRaw(Trim(s));
    RawIsPlainOrSpace(Trim(s));
    WordsArePlain(raw);
    if Words(raw) != [] { JoinedWordsAreTidy(Words(raw)); }
  }

  lemma {:induction false} TidyChars(s: string, afterSpace: bool)
    requires TidyFrom(s, afterSpace)
    ensures forall i :: 0 <= i < |s| ==> Plain(s[i]) || s[i] == ' '
    ensures s != [] ==> !IsWhitespace(s[|s| - 1])
  {
    if s != [] { TidyChars(s[1..], s[0] == ' '); }
  }

  lemma {:induction false} RawKeepsTidy(s: string)
    requires forall i :: 0 <= i < |s| ==> Plain(s[i]) || s[i] == ' '
    ensures SanitizeRaw(s) == s
  {
    if s != [] {
      RawKeepsTidy(s[..|s| - 1]);
      assert s == s[..|s| - 1] + [s[|s| - 1]];
    }
  }

  lemma {:induction false} TidyBehindWord(s: string, afterSpace: bool)
    requires TidyFrom(s, afterSpace) && s != [] && s[0] != ' '
    ensures TidyFrom(s[|FirstWord(s)|..], false)
  {
    if |s| > 1 && s[1] != ' ' {
      TidyBehindWord(s[1..], false);
      assert s[1..][|FirstWord(s[1..])|..] == s[|FirstWord(s)|..];
    }
  }

  lemma {:induction false} TidyIsItsWords(s: string)
    requires TidyFrom(s, true)
    ensures Join(Words(s), ' ') == s && Words(s) != []
    decreases |s|
  {
    var w := FirstWord(s);
    var rest := s[|w|..];
    TidyBehindWord(s, true);
    assert s == w + rest;
    if rest != [] {
      WordStops(s);
      assert rest[0] == ' ';
      TidyIsItsWords(rest[1..]);
      assert Words(rest) == Words(rest[1..]);
      assert Words(s) == [w] + Words(rest) && Words(s)[1..] == Words(rest);
      assert rest == [' '] + rest[1..];
    }
  }

  lemma {:induction false} WordStops(s: string)
    ensures |FirstWord(s)| < |s| ==> IsWhitespace(s[|FirstWord(s)|])
  {
    if s != [] && !IsWhitespace(s[0]) { WordStops(s[1..]); }
  }

  /** Tidy text is left as it is. */
  lemma SanitizeKeepsTidy(s: string)
    requires Tidy(s)
    ensures Sanitize(s) == s
  {
    if s != [] {
      TidyChars(s, true);
      RawKeepsTidy(s);
      TidyIsItsWords(s);
    }
  }

  /** Sanitizing is idempotent on every string. */
  lemma SanitizeIdempotent(s: string)
    ensures Sanitize(Sanitize(s)) == Sanitize(s)
  {
    SanitizedIsTidy(s);
    SanitizeKeepsTidy(Sanitize(s));
  }

  // Which characters can turn up ------------------------------------------------------------------

  /** Sanitizing brings in nothing but spaces and the letters of And. */
  predicate From(out: string, s: string) {
    forall i :: 0 <= i < |out| ==> out[i] in s || out[i] == ' ' || out[i] == 'A' || out[i] == 'n' || out[i] == 'd'
  }

  lemma {:induction false} TrimIsPart(s: string)
    ensures From(Trim(s), s)
  {
    TrimStartIsPart(s);
    TrimEndIsPart(TrimStart(s));
  }

  lemma {:induction false} TrimStartIsPart(s: string)
    ensures forall c :: c in TrimStart(s) ==> c in s
  {
    if s != [] && IsWhitespace(s[0]) { TrimStartIsPart(s[1..]); }
  }

  lemma {:induction false} TrimEndIsPart(s: string)
    ensures forall c :: c in TrimEnd(s) ==> c in s
  {
    if s != [] && IsWhitespace(s[|s| - 1]) { TrimEndIsPart(s[..|s| - 1]); }
  }

  lemma {:induction false} RawIsFrom(s: string)
    ensures From(SanitizeRaw(s), s)
  {
    if s != [] {
      RawIsFrom(s[..|s| - 1]);
      assert forall c :: c in s[..|s| - 1] ==> c in s;
    }
  }

  lemma {:induction false} WordsAreParts(s: string, k: nat)
    requires k < |Words(s)|
    ensures forall c :: c in Words(s)[k] ==> c in s
    decreases |s|
  {
    if IsWhitespace(s[0]) {
      WordsAreParts(s[1..], k);
    } else if k > 0 {
      WordsAreParts(s[|FirstWord(s)|..], k - 1);
    }
  }

  lemma {:induction false} JoinedIsFrom(words: seq<string>, s: string)
    requires forall k, c :: 0 <= k < |words| && c in words[k] ==> c in s
    ensures From(Join(words, ' '), s)
  {
    if |words| > 1 { JoinedIsFrom(words[1..], s); }
  }

  lemma SanitizedIsFrom(s: string)
    ensures From(Sanitize(s), s)
  {
    var raw := SanitizeRaw(Trim(s));
    forall k, c | 0 <= k < |Words(raw)| && c in Words(raw)[k] ensures c in raw { WordsAreParts(raw, k); }
    JoinedIsFrom(Words(raw), raw);
    RawIsFrom(Trim(s));
    TrimIsPart(s);
  }

  // Title case --------------------------------------------------------------------------------------

  predicate StartsWord(c: char) { c == ' ' || c == '-' || c == '_' }

  /** The text with every word begun in upper case and continued in lower case. */
  function TitleCase(t: Casing, s: string, capitalize: bool): string {
    if s == [] then []
    else if StartsWord(s[0]) then [s[0]] + TitleCase(t, s[1..], true)
    else (if capitalize then t.upper(s[0]) else t.lower(s[0])) + TitleCase(t, s[1..], false)
  }

  method ToTitleCase(t: Casing, s: string) returns (result: string)
    ensures result == TitleCase(t, s, true)
  {
    result := "";
    var capitalizeNext := true;
    var i := 0;
    while i < |s|
      invariant 0 <= i <= |s|
      invariant result + TitleCase(t, s[i..], capitalizeNext) == TitleCase(t, s, true)
    {
      var ch := s[i];
      ghost var before := result;
      ghost var rest := TitleCase(t, s[i + 1..], !(!StartsWord(ch)));
      assert s[i..][1..] == s[i + 1..];
      if ch == ' ' || ch == '-' || ch == '_' {
        assert (result + [ch]) + rest == result + ([ch] + rest);
        result := result + [ch];
        capitalizeNext := true;
      } else if capitalizeNext {
        assert (result + t.upper(ch)) + rest == result + (t.upper(ch) + rest);
        result := result + t.upper(ch);
        capitalizeNext := false;
      } else {
        assert (result + t.lower(ch)) + rest == result + (t.lower(ch) + rest);
        result := result + t.lower(ch);
      }
      i := i + 1;
    }
  }

  /** The mappings bring no d into text without one. */
  ghost predicate KeepsFree(t: Casing, d: char) {
    forall c: char :: c != d ==> d !in t.upper(c) && d !in t.lower(c)
  }

  lemma {:induction false} TitleCaseKeepsFree(t: Casing, s: string, capitalize: bool, d: char)
    requires KeepsFree(t, d) && d !in s
    ensures d !in TitleCase(t, s, capitalize)
  {
    if s != [] { TitleCaseKeepsFree(t, s[1..], StartsWord(s[0]), d); }
  }

  /** On ASCII text title-casing maps character by character. */
  lemma {:induction false} TitleCaseShape(t: Casing, s: string, capitalize: bool)
    requires AsciiCasing(t) && Ascii(s)
    ensures var r := TitleCase(t, s, capitalize);
            && |r| == |s| && Ascii(r) && Same(r, s)
            && forall i :: 0 <= i < |s| ==> r[i] == s[i] || (IsLetter(r[i]) && IsLetter(s[i]))
  {
    if s != [] { TitleCaseShape(t, s[1..], StartsWord(s[0])); }
  }

  lemma {:induction false} TitleCaseIdempotent(t: Casing, s: string, capitalize: bool)
    requires AsciiCasing(t) && Ascii(s)
    ensures TitleCase(t, TitleCase(t, s, capitalize), capitalize) == TitleCase(t, s, capitalize)
  {
    if s != [] {
      var c := StartsWord(s[0]);
      TitleCaseIdempotent(t, s[1..], c);
      assert TitleCase(t, s, capitalize)[1..] == TitleCase(t, s[1..], c);
    }
  }

  lemma {:induction false} TitleCaseKeepsTidy(t: Casing, s: string, capitalize: bool, afterSpace: bool)
    requires AsciiCasing(t) && Ascii(s)
    ensures TidyFrom(TitleCase(t, s, capitalize), afterSpace) == TidyFrom(s, afterSpace)
  {
    if s != [] {
      var c := StartsWord(s[0]);
      TitleCaseKeepsTidy(t, s[1..], c, s[0] == ' ');
      assert TitleCase(t, s, capitalize)[1..] == TitleCase(t, s[1..], c);
    }
  }

  /** Texts that differ in ASCII case alone are title-cased alike. */
  lemma {:induction false} TitleCaseForgetsCase(t: Casing, a: string, b: string, capitalize: bool)
    requires AsciiCasing(t) && Same(a, b)
    ensures TitleCase(t, a, capitalize) == TitleCase(t, b, capitalize)
  {
    assert |Lower(a)| == |Lower(b)|;
    if a != [] {
      SameHeads(a, b);
      if a[0] != b[0] { assert IsAscii(a[0]) && IsAscii(b[0]) && UpperChar(a[0]) == UpperChar(b[0]); }
      TitleCaseForgetsCase(t, a[1..], b[1..], StartsWord(a[0]));
    }
  }

  /** Where title-casing has nothing more to do: what each character became is what it becomes again. */
  predicate Settles(t: Casing, s: string, capitalize: bool) {
    if s == [] then true
    else if StartsWord(s[0]) then Settles(t, s[1..], true)
    else
      var image := if capitalize then t.upper(s[0]) else t.lower(s[0]);
      TitleCase(t, image, capitalize) == image && Settles(t, s[1..], false)
  }

  /** Text that begins no new word. */
  predicate WithinWord(s: string) { s != [] && forall i :: 0 <= i < |s| ==> !StartsWord(s[i]) }

  /** A character is mapped to characters of a word, and those to one character each. */
  predicate RegularAt(t: Casing, c: char) {
    var u, l := t.upper(c), t.lower(c);
    && WithinWord(u) && WithinWord(l)
    && |t.upper(u[0])| == 1
    && (forall i :: 1 <= i < |u| ==> |t.lower(u[i])| == 1)
    && (forall i :: 0 <= i < |l| ==> |t.lower(l[i])| == 1)
  }

  lemma {:induction false} TitleCaseWithinWord(t: Casing, w: string, rest: string, capitalize: bool)
    requires WithinWord(w)
    ensures TitleCase(t, w + rest, capitalize) == TitleCase(t, w, capitalize) + TitleCase(t, rest, false)
  {
    assert (w + rest)[1..] == w[1..] + rest;
    if |w| > 1 {
      TitleCaseWithinWord(t, w[1..], rest, false);
    } else {
      assert w[1..] == [] && w[1..] + rest == rest;
    }
  }

  lemma {:induction false} LowerTailLength(t: Casing, w: string)
    requires forall i :: 0 <= i < |w| ==> !StartsWord(w[i]) && |t.lower(w[i])| == 1
    ensures |TitleCase(t, w, false)| == |w|
  {
    if w != [] { LowerTailLength(t, w[1..]); }
  }

  lemma ImageKeepsLength(t: Casing, c: char, capitalize: bool)
    requires RegularAt(t, c)
    ensures var image := if capitalize then t.upper(c) else t.lower(c);
            WithinWord(image) && |TitleCase(t, image, capitalize)| == |image|
  {
    if capitalize { LowerTailLength(t, t.upper(c)[1..]); } else { LowerTailLength(t, t.lower(c)); }
  }

  lemma SameHalves(a: string, b: string, a': string, b': string)
    requires |a| == |a'|
    ensures a + b == a' + b' <==> a == a' && b == b'
  {
    assert (a + b)[..|a|] == a && (a' + b')[..|a'|] == a' && (a + b)[|a|..] == b && (a' + b')[|a'|..] == b';
  }

  /** Title-casing twice is title-casing once exactly when every character settles where it stands. */
  lemma {:induction false} TitleCaseSettlesIff(t: Casing, s: string, capitalize: bool)
    requires forall i :: 0 <= i < |s| ==> StartsWord(s[i]) || RegularAt(t, s[i])
    ensures TitleCase(t, TitleCase(t, s, capitalize), capitalize) == TitleCase(t, s, capitalize) <==> Settles(t, s, capitalize)
  {
    if s != [] {
      var c, rest := s[0], s[1..];
      if StartsWord(c) {
        TitleCaseSettlesIff(t, rest, true);
        var r := TitleCase(t, rest, true);
        assert ([c] + r)[1..] == r;
        SameHalves([c], TitleCase(t, r, true), [c], r);
      } else {
        assert RegularAt(t, s[0]);
        TitleCaseSettlesIff(t, rest, false);
        var image, r := if capitalize then t.upper(c) else t.lower(c), TitleCase(t, rest, false);
        ImageKeepsLength(t, c, capitalize);
        TitleCaseWithinWord(t, image, r, capitalize);
        SameHalves(TitleCase(t, image, capitalize), TitleCase(t, r, false), image, r);
      }
    }
  }

  lemma SameHeads(a: string, b: string)
    requires Same(a, b) && a != []
    ensures b != [] && LowerChar(a[0]) == LowerChar(b[0]) && Same(a[1..], b[1..])
    ensures IsWhitespace(a[0]) == IsWhitespace(b[0]) && StartsWord(a[0]) == StartsWord(b[0])
    ensures !IsLetter(a[0]) ==> a[0] == b[0]
    ensures |a| == |b|
  {
    assert |Lower(a)| == |Lower(b)|;
    assert Lower(a)[0] == LowerChar(a[0]) && Lower(b)[0] == LowerChar(b[0]);
    assert Lower(a)[1..] == Lower(a[1..]) && Lower(b)[1..] == Lower(b[1..]);
  }

  lemma SameLasts(a: string, b: string)
    requires Same(a, b) && a != []
    ensures |a| == |b| && LowerChar(a[|a| - 1]) == LowerChar(b[|b| - 1])
    ensures Same(a[..|a| - 1], b[..|b| - 1])
  {
    assert |Lower(a)| == |Lower(b)|;
    var n := |a| - 1;
    assert Lower(a)[n] == LowerChar(a[n]) && Lower(b)[n] == LowerChar(b[n]);
    assert Lower(a)[..n] == Lower(a[..n]) && Lower(b)[..n] == Lower(b[..n]);
  }

  // Sanitizing respects case-insensitive equality ----------------------------------------------------

  ghost predicate AllSame(a: seq<string>, b: seq<string>) { |a| == |b| && forall k :: 0 <= k < |a| ==> Same(a[k], b[k]) }

  lemma {:induction false} TrimSame(a: string, b: string)
    requires Same(a, b)
    ensures Same(Trim(a), Trim(b))
  {
    TrimStartSame(a, b);
    TrimEndSame(TrimStart(a), TrimStart(b));
  }

  lemma {:induction false} TrimStartSame(a: string, b: string)
    requires Same(a, b)
    ensures Same(TrimStart(a), TrimStart(b))
  {
    assert |Lower(a)| == |Lower(b)|;
    if a != [] {
      SameHeads(a, b);
      if IsWhitespace(a[0]) { TrimStartSame(a[1..], b[1..]); }
    }
  }

  lemma {:induction false} TrimEndSame(a: string, b: string)
    requires Same(a, b)
    ensures Same(TrimEnd(a), TrimEnd(b))
  {
    assert |Lower(a)| == |Lower(b)|;
    if a != [] {
      SameLasts(a, b);
      if IsWhitespace(a[|a| - 1]) { TrimEndSame(a[..|a| - 1], b[..|b| - 1]); }
    }
  }

  lemma SanitizeCharSame(x: char, y: char)
    requires LowerChar(x) == LowerChar(y)
    ensures Same(SanitizeChar(x), SanitizeChar(y))
  {
    if IsLetter(x) {
      assert SanitizeChar(x) == [x] && SanitizeChar(y) == [y];
      assert Lower([x]) == [LowerChar(x)] && Lower([y]) == [LowerChar(y)];
    } else {
      assert x == y;
    }
  }

  lemma {:induction false} RawSame(a: string, b: string)
    requires Same(a, b)
    ensures Same(SanitizeRaw(a), SanitizeRaw(b))
  {
    assert |Lower(a)| == |Lower(b)|;
    if a != [] {
      SameLasts(a, b);
      RawSame(a[..|a| - 1], b[..|b| - 1]);
      var x, y := a[|a| - 1], b[|b| - 1];
      SanitizeCharSame(x, y);
      SameConcat(SanitizeRaw(a[..|a| - 1]), SanitizeChar(x), SanitizeRaw(b[..|b| - 1]), SanitizeChar(y));
    }
  }

  lemma {:induction false} FirstWordSame(a: string, b: string)
    requires Same(a, b)
    ensures |FirstWord(a)| == |FirstWord(b)| && |a| == |b|
    ensures Same(FirstWord(a), FirstWord(b)) && Same(a[|FirstWord(a)|..], b[|FirstWord(b)|..])
  {
    assert |Lower(a)| == |Lower(b)|;
    if a != [] {
      SameHeads(a, b);
      if !IsWhitespace(a[0]) {
        FirstWordSame(a[1..], b[1..]);
        SameConcat([a[0]], FirstWord(a[1..]), [b[0]], FirstWord(b[1..]));
        assert a[|FirstWord(a)|..] == a[1..][|FirstWord(a[1..])|..];
        assert b[|FirstWord(b)|..] == b[1..][|FirstWord(b[1..])|..];
      }
    }
  }

  lemma {:induction false} WordsSame(a: string, b: string)
    requires Same(a, b)
    ensures AllSame(Words(a), Words(b))
    decreases |a|
  {
    assert |Lower(a)| == |Lower(b)|;
    if a != [] {
      SameHeads(a, b);
      if IsWhitespace(a[0]) {
        WordsSame(a[1..], b[1..]);
      } else {
        FirstWordSame(a, b);
        WordsSame(a[|FirstWord(a)|..], b[|FirstWord(b)|..]);
      }
    }
  }

  lemma {:induction false} JoinSame(a: seq<string>, b: seq<string>, d: char)
    requires AllSame(a, b)
    ensures Same(Join(a, d), Join(b, d))
  {
    if |a| > 1 {
      JoinSame(a[1..], b[1..], d);
      SameConcat([d], Join(a[1..], d), [d], Join(b[1..], d));
      SameConcat(a[0], [d] + Join(a[1..], d), b[0], [d] + Join(b[1..], d));
    }
  }

  lemma SanitizeSame(a: string, b: string)
    requires Same(a, b)
    ensures Same(Sanitize(a), Sanitize(b))
  {
    TrimSame(a, b);
    RawSame(Trim(a), Trim(b));
    WordsSame(SanitizeRaw(Trim(a)), SanitizeRaw(Trim(b)));
    JoinSame(Words(SanitizeRaw(Trim(a))), Words(SanitizeRaw(Trim(b))), ' ');
  }

  lemma {:induction false} SplitSame(a: string, b: string, d: char)
    requires Same(a, b) && !IsLetter(d)
    ensures AllSame(Split(a, d), Split(b, d))
  {
    assert |Lower(a)| == |Lower(b)|;
    if a != [] {
      SameHeads(a, b);
      SplitSame(a[1..], b[1..], d);
      var p, q := Split(a[1..], d), Split(b[1..], d);
      assert a[0] == d <==> b[0] == d;
      if a[0] != d { SameConcat([a[0]], p[0], [b[0]], q[0]); }
    }
  }
}
