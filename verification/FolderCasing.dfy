/** Canonical paths beyond ASCII: when title-casing settles. */
module FolderCasing {
  import opened Common
  import opened FolderText
  import opened FolderPath

  /** A character of a word is mapped to plain characters of a word, and those to one character each. */
  predicate FineAt(t: Casing, c: char) {
    RegularAt(t, c) && AllPlain(t.upper(c)) && AllPlain(t.lower(c))
  }

  predicate AllPlain(s: string) { forall i :: 0 <= i < |s| ==> Plain(s[i]) }

  /** What the Unicode mappings are like, for a delimiter such as the slash or the dot. */
  ghost predicate Unicode(t: Casing, d: char) {
    && AsciiCasing(t)
    && KeepsDelimiter(TitleCased(t), d)
    && forall c: char :: Plain(c) && !StartsWord(c) ==> FineAt(t, c)
  }

  lemma TidyIsFine(t: Casing, d: char, s: string, afterSpace: bool)
    requires Unicode(t, d) && TidyFrom(s, afterSpace)
    ensures forall i :: 0 <= i < |s| ==> StartsWord(s[i]) || RegularAt(t, s[i])
  {
    TidyChars(s, afterSpace);
    forall i | 0 <= i < |s| && !StartsWord(s[i]) ensures RegularAt(t, s[i]) { assert FineAt(t, s[i]); }
  }

  lemma PlainWordIsTidy(w: string, rest: string, afterSpace: bool)
    requires w != [] && AllPlain(w)
    ensures TidyFrom(w + rest, afterSpace) == TidyFrom(rest, false)
  {
    TidyWord(w, rest, afterSpace);
  }

  /** Title-casing keeps tidy text tidy, and only the empty text empty. */
  lemma {:induction false} TitleCaseTidy(t: Casing, d: char, s: string, capitalize: bool, afterSpace: bool)
    requires Unicode(t, d) && TidyFrom(s, afterSpace)
    ensures TidyFrom(TitleCase(t, s, capitalize), afterSpace)
    ensures s != [] ==> TitleCase(t, s, capitalize) != []
  {
    if s != [] {
      var c, rest := s[0], s[1..];
      TitleCaseTidy(t, d, rest, StartsWord(c), c == ' ');
      var r := TitleCase(t, rest, StartsWord(c));
      if StartsWord(c) {
        assert ([c] + r)[1..] == r;
      } else {
        assert FineAt(t, c);
        PlainWordIsTidy(if capitalize then t.upper(c) else t.lower(c), r, afterSpace);
      }
    }
  }

  // Segments ----------------------------------------------------------------------------------------

  function TitleAll(t: Casing, segments: seq<string>): seq<string> {
    if segments == [] then [] else [TitleCase(t, segments[0], true)] + TitleAll(t, segments[1..])
  }

  lemma {:induction false} TitleAllAt(t: Casing, segments: seq<string>)
    ensures |TitleAll(t, segments)| == |segments|
    ensures forall i :: 0 <= i < |segments| ==> TitleAll(t, segments)[i] == TitleCase(t, segments[i], true)
  {
    if segments != [] { TitleAllAt(t, segments[1..]); }
  }

  ghost predicate AllTidy(segments: seq<string>) { forall i :: 0 <= i < |segments| ==> segments[i] != "" && Tidy(segments[i]) }

  lemma OnePart(t: Casing, d: char, part: string)
    requires Unicode(t, d)
    ensures var s, titled := Process(Preserve, part), Process(TitleCased(t), part);
            Tidy(s) && titled == TitleCase(t, s, true) && (s == "" <==> titled == "")
  {
    SanitizedIsTidy(part);
    if Sanitize(part) != "" { TitleCaseTidy(t, d, Sanitize(part), true, true); }
  }

  lemma OneMore(t: Casing, s: string, segments: seq<string>)
    requires s != "" && Tidy(s) && AllTidy(segments)
    ensures AllTidy([s] + segments)
    ensures TitleAll(t, [s] + segments) == [TitleCase(t, s, true)] + TitleAll(t, segments)
  {
    assert ([s] + segments)[1..] == segments;
  }

  /** Title-casing comes behind sanitizing, segment by segment. */
  lemma {:induction false} ProcessAllTitles(t: Casing, d: char, parts: seq<string>)
    requires Unicode(t, d)
    ensures AllTidy(NonEmpty(ProcessAll(Preserve, parts)))
    ensures NonEmpty(ProcessAll(TitleCased(t), parts)) == TitleAll(t, NonEmpty(ProcessAll(Preserve, parts)))
  {
    if parts != [] {
      ProcessAllTitles(t, d, parts[1..]);
      ProcessedFirst(Preserve, parts);
      ProcessedFirst(TitleCased(t), parts);
      OnePart(t, d, parts[0]);
      if Process(Preserve, parts[0]) != "" {
        OneMore(t, Process(Preserve, parts[0]), NonEmpty(ProcessAll(Preserve, parts[1..])));
      }
    }
  }

  lemma ProcessedFirst(policy: Policy, parts: seq<string>)
    requires parts != []
    ensures NonEmpty(ProcessAll(policy, parts))
         == if Process(policy, parts[0]) == "" then NonEmpty(ProcessAll(policy, parts[1..]))
            else [Process(policy, parts[0])] + NonEmpty(ProcessAll(policy, parts[1..]))
  {
    var all := ProcessAll(policy, parts);
    assert all[0] == Process(policy, parts[0]) && all[1..] == ProcessAll(policy, parts[1..]);
  }

  /** The sanitized segments of the path, case as it came. */
  function Clean(path: string, d: char): seq<string> { NormalSegments(Preserve, path, d) }

  lemma NormalIsTitled(t: Casing, path: string, d: char)
    requires Unicode(t, d)
    ensures AllTidy(Clean(path, d)) && NormalSegments(TitleCased(t), path, d) == TitleAll(t, Clean(path, d))
  {
    ProcessAllTitles(t, d, NonEmpty(Split(path, d)));
  }

  lemma {:induction false} SanitizedAlready(segments: seq<string>)
    requires AllTidy(segments)
    ensures NonEmpty(ProcessAll(Preserve, segments)) == segments
  {
    if segments != [] {
      SanitizeKeepsTidy(segments[0]);
      SanitizedAlready(segments[1..]);
      assert ProcessAll(Preserve, segments)[1..] == ProcessAll(Preserve, segments[1..]);
      assert segments == [segments[0]] + segments[1..];
    }
  }

  /** A path joined from tidy parts is normalized by title-casing them. */
  lemma JoinedIsTitled(t: Casing, segments: seq<string>, d: char)
    requires Unicode(t, d) && Parted(segments, d) && AllTidy(segments)
    ensures NormalSegments(TitleCased(t), Join(segments, d), d) == TitleAll(t, segments)
  {
    PartsComeBack(segments, d);
    SanitizedAlready(segments);
    NormalIsTitled(t, Join(segments, d), d);
  }

  lemma JoinIsInjective(a: seq<string>, b: seq<string>, d: char)
    requires Parted(a, d) && Parted(b, d)
    ensures Join(a, d) == Join(b, d) <==> a == b
  {
    PartsComeBack(a, d);
    PartsComeBack(b, d);
  }

  // When normalizing is idempotent --------------------------------------------------------------------

  lemma TitledIsTidy(t: Casing, d: char, segments: seq<string>)
    requires Unicode(t, d) && AllTidy(segments)
    ensures AllTidy(TitleAll(t, segments))
  {
    TitleAllAt(t, segments);
    forall i | 0 <= i < |segments| ensures TitleAll(t, segments)[i] != "" && Tidy(TitleAll(t, segments)[i]) {
      TitleCaseTidy(t, d, segments[i], true, true);
    }
  }

  /** A titled segment is titled alike again exactly when the segment settles. */
  lemma TitledTwiceIff(t: Casing, d: char, s: string)
    requires Unicode(t, d) && s != "" && Tidy(s)
    ensures TitleCase(t, TitleCase(t, s, true), true) == TitleCase(t, s, true) <==> Settles(t, s, true)
  {
    TidyIsFine(t, d, s, true);
    TitleCaseSettlesIff(t, s, true);
  }

  ghost predicate AllSettle(t: Casing, segments: seq<string>) {
    forall i :: 0 <= i < |segments| ==> Settles(t, segments[i], true)
  }

  lemma AllTitledTwiceIff(t: Casing, d: char, segments: seq<string>)
    requires Unicode(t, d) && AllTidy(segments)
    ensures TitleAll(t, TitleAll(t, segments)) == TitleAll(t, segments) <==> AllSettle(t, segments)
  {
    var once := TitleAll(t, segments);
    TitleAllAt(t, segments);
    TitleAllAt(t, once);
    forall i | 0 <= i < |segments| ensures TitleAll(t, once)[i] == once[i] <==> Settles(t, segments[i], true) {
      TitledTwiceIff(t, d, segments[i]);
    }
  }

  /** For every path: normalizing twice is normalizing once exactly when every sanitized segment settles. */
  lemma NormalizeIdempotentIff(t: Casing, path: string, d: char)
    requires Unicode(t, d)
    ensures var p := TitleCased(t);
            Normalize(p, Normalize(p, path, d), d) == Normalize(p, path, d) <==> AllSettle(t, Clean(path, d))
  {
    var p, clean := TitleCased(t), Clean(path, d);
    var once := TitleAll(t, clean);
    NormalIsTitled(t, path, d);
    NormalIsParted(p, path, d);
    TitledIsTidy(t, d, clean);
    JoinedIsTitled(t, once, d);
    NormalIsParted(p, Normalize(p, path, d), d);
    JoinIsInjective(TitleAll(t, once), once, d);
    AllTitledTwiceIff(t, d, clean);
  }

  // When canonicalizing is idempotent -----------------------------------------------------------------

  /** The canonical path keeps all titled segments, or only the second one, or none of them. */
  ghost predicate KeptSegmentsSettle(t: Casing, path: string, d: char) {
    var clean := Clean(path, d);
    var titled := TitleAll(t, clean);
    if Rewrite(titled).None? then AllSettle(t, clean)
    else |titled| == |clean| == 2 && Lower(titled[0]) == "security" ==> Settles(t, clean[1], true)
  }

  lemma CapitalWordStays(t: Casing, s: string)
    requires AsciiCasing(t) && CapitalWord(s)
    ensures s != "" && Tidy(s) && TitleCase(t, s, true) == s
  {
    CapitalWordIsSettled(TitleCased(t), s, '/');
  }

  /** A rewritten path consists of fixed names, and the second segment below Security. */
  lemma RewrittenTitles(t: Casing, d: char, segments: seq<string>)
    requires Unicode(t, d) && AllTidy(segments) && Rewrite(segments).Some?
    ensures var out := Rewrite(segments).value;
            && AllTidy(out)
            && (TitleAll(t, out) == out <==>
                  (|segments| == 2 && Lower(segments[0]) == "security" ==> TitleCase(t, segments[1], true) == segments[1]))
  {
    var out := Rewrite(segments).value;
    if |segments| == 2 && Lower(segments[0]) == "security" {
      SecurityTitles(t, segments[1]);
    } else {
      forall i | 0 <= i < |out| ensures out[i] != "" && Tidy(out[i]) && TitleCase(t, out[i], true) == out[i] {
        FixedNamesOnly(segments, i);
        CapitalWordStays(t, out[i]);
      }
      TitleAllAt(t, out);
    }
  }

  lemma SecurityTitles(t: Casing, second: string)
    requires AsciiCasing(t) && second != "" && Tidy(second)
    ensures var out := ["Personal", "Security", second];
            AllTidy(out) && (TitleAll(t, out) == out <==> TitleCase(t, second, true) == second)
  {
    FixedNamesAreCapitalWords();
    CapitalWordStays(t, "Personal");
    CapitalWordStays(t, "Security");
    var out := ["Personal", "Security", second];
    TitleAllAt(t, out);
    assert TitleAll(t, out)[2] == TitleCase(t, second, true) && out[2] == second;
  }

  lemma FixedNamesOnly(segments: seq<string>, i: nat)
    requires Rewrite(segments).Some? && i < |Rewrite(segments).value|
    requires !(|segments| == 2 && Lower(segments[0]) == "security")
    ensures CapitalWord(Rewrite(segments).value[i])
  {
    FixedNamesAreCapitalWords();
    if |segments| == 1 && Lower(segments[0]) != "security" { ContainerNames(Lower(segments[0])); }
  }

  lemma RewritingLengthens(segments: seq<string>)
    requires Rewrite(segments).Some?
    ensures |Rewrite(segments).value| > |segments|
  {
  }

  /** The canonical segments are tidy, and stay under title-casing exactly when the kept segments settle. */
  lemma CanonicalTitles(t: Casing, path: string, d: char)
    requires Unicode(t, d)
    ensures var out := CanonicalSegments(TitleCased(t), path, d);
            AllTidy(out) && (TitleAll(t, out) == out <==> KeptSegmentsSettle(t, path, d))
  {
    var clean := Clean(path, d);
    var titled := TitleAll(t, clean);
    NormalIsTitled(t, path, d);
    TitledIsTidy(t, d, clean);
    TitleAllAt(t, clean);
    if Rewrite(titled).None? {
      AllTitledTwiceIff(t, d, clean);
    } else {
      RewrittenTitles(t, d, titled);
      if |clean| == 2 { TitledTwiceIff(t, d, clean[1]); }
    }
  }

  /** For every path: canonicalizing twice is canonicalizing once exactly when the segments it keeps settle. */
  lemma CanonicalizeIdempotentIff(t: Casing, path: string, d: char)
    requires Unicode(t, d)
    ensures var p := TitleCased(t);
            Canonicalize(p, Canonicalize(p, path, d), d) == Canonicalize(p, path, d) <==> KeptSegmentsSettle(t, path, d)
  {
    var p := TitleCased(t);
    var once, path' := CanonicalSegments(p, path, d), Canonicalize(p, path, d);
    var twice := CanonicalSegments(p, path', d);
    CanonicalForm(p, path, d);
    CanonicalForm(p, path', d);
    CanonicalTitles(t, path, d);
    JoinedIsTitled(t, once, d);
    TitleAllAt(t, once);
    JoinIsInjective(twice, once, d);
    if Rewrite(TitleAll(t, once)).Some? { RewritingLengthens(TitleAll(t, once)); }
  }

  /**
   * For every path and under both policies, no segment of the canonical path holds a hostile character, a
   * control character, an ampersand or the delimiter.
   */
  lemma CanonicalIsHarmless(policy: Policy, path: string, d: char, i: nat)
    requires Delimiter(d) && (policy.TitleCased? ==> Unicode(policy.t, d))
    requires i < |CanonicalSegments(policy, path, d)|
    ensures Harmless(CanonicalSegments(policy, path, d)[i], d)
  {
    var segments := CanonicalSegments(policy, path, d);
    CanonicalForm(policy, path, d);
    match policy
    case Preserve =>
      CanonicalIsSettled(policy, path, d);
      assert Settled(policy, segments[i], d);
      TidyIsHarmless(segments[i], d);
    case TitleCased(t) =>
      CanonicalTitles(t, path, d);
      TidyIsHarmless(segments[i], d);
  }

  /** ASCII text settles. */
  lemma {:induction false} AsciiSettles(t: Casing, s: string, capitalize: bool)
    requires AsciiCasing(t) && Ascii(s)
    ensures Settles(t, s, capitalize)
  {
    if s != [] {
      AsciiSettles(t, s[1..], StartsWord(s[0]));
      assert IsAscii(s[0]);
      TitleCaseIdempotent(t, [s[0]], capitalize);
      assert [s[0]][1..] == [] && TitleCase(t, [], false) == [];
    }
  }

  // A path that does not settle -----------------------------------------------------------------------

  const SHARP_S: char := 0xDF as char

  lemma OneSegment(s: string, d: char)
    requires s != "" && Tidy(s) && d !in s
    ensures Clean(s, d) == [s]
  {
    SplitPrefix(s, "", d);
    SanitizeKeepsTidy(s);
    OneProcessed(s);
  }

  lemma OneProcessed(s: string)
    requires s != "" && Process(Preserve, s) == s
    ensures NonEmpty([s]) == [s] && ProcessAll(Preserve, [s]) == [s]
  {
    assert [s][0] == s && [s][1..] == [] && NonEmpty([]) == [] && ProcessAll(Preserve, []) == [];
  }

  /** A word of two characters no container is named by. */
  lemma TwoLettersStay(t: Casing, s: string, d: char)
    requires Unicode(t, d) && s != "" && Tidy(s) && d !in s && |TitleCase(t, s, true)| == 2
    ensures Canonicalize(TitleCased(t), s, d) == TitleCase(t, s, true)
  {
    OneSegment(s, d);
    NormalIsTitled(t, s, d);
    TitleAllAt(t, [s]);
    CanonicalForm(TitleCased(t), s, d);
    assert |Lower(TitleCase(t, s, true))| == 2;
    assert TitleAll(t, [s]) == [TitleCase(t, s, true)];
  }

  /** The path of one sharp s is canonicalized to SS, and that to Ss. */
  lemma SharpSDoesNotSettle(t: Casing, d: char)
    requires Unicode(t, d) && t.upper(SHARP_S) == "SS" && d != SHARP_S
    ensures Canonicalize(TitleCased(t), [SHARP_S], d) == "SS" && Canonicalize(TitleCased(t), "SS", d) == "Ss"
    ensures !KeptSegmentsSettle(t, [SHARP_S], d)
  {
    assert TitleCase(t, [], false) == [] && [SHARP_S][1..] == [] && "SS"[1..] == "S" && "S"[1..] == [];
    assert IsAscii('S');
    assert TitleCase(t, [SHARP_S], true) == "SS";
    assert TitleCase(t, "S", false) == "s" && TitleCase(t, "SS", true) == "Ss";
    TwoLettersStay(t, [SHARP_S], d);
    TwoLettersStay(t, "SS", d);
    CanonicalizeIdempotentIff(t, [SHARP_S], d);
  }
}
