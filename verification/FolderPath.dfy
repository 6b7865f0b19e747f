/** Normal and canonical folder paths. */
module FolderPath {
  import opened Common
  import opened FolderText
  import FolderWords

  /** FOLDER_CASING_POLICY: segments keep their case, or are title-cased by the given mappings. */
  datatype Policy = Preserve | TitleCased(t: Casing)

  function Process(policy: Policy, segment: string): string {
    match policy
    case Preserve => Sanitize(segment)
    case TitleCased(t) => TitleCase(t, Sanitize(segment), true)
  }

  function ProcessAll(policy: Policy, segments: seq<string>): seq<string> {
    if segments == [] then [] else [Process(policy, segments[0])] + ProcessAll(policy, segments[1..])
  }

  /** The segments normalization joins. */
  function NormalSegments(policy: Policy, path: string, d: char): seq<string> {
    NonEmpty(ProcessAll(policy, NonEmpty(Split(path, d))))
  }

  function Normalize(policy: Policy, path: string, d: char): string { Join(NormalSegments(policy, path, d), d) }

  /** The top-level folders that only hold others. */
  function ContainerName(first: string): Option<string> {
    if first == "personal" then Some("Personal")
    else if first == "work" then Some("Work")
    else if first == "financial" then Some("Financial")
    else if first == "social" then Some("Social")
    else if first == "education" then Some("Education")
    else if first == "health" then Some("Health")
    else if first == "travel" then Some("Travel")
    else if first == "newsletters" then Some("Newsletters")
    else None
  }

  /** The path a bare container is filed under instead, if the path is one. */
  function Rewrite(segments: seq<string>): Option<seq<string>> {
    if |segments| == 1 then
      var first := Lower(segments[0]);
      if first == "security" then Some(["Personal", "Security", "Alerts"])
      else match ContainerName(first) case Some(name) => Some([name, "General"]) case None => None
    else if |segments| == 2 then
      var first, second := Lower(segments[0]), Lower(segments[1]);
      if first == "security" then Some(["Personal", "Security", segments[1]])
      else if first == "personal" && second == "security" then Some(["Personal", "Security", "Alerts"])
      else if first == "personal" && second == "property" then Some(["Personal", "Property", "General"])
      else if first == "personal" && second == "shopping" then Some(["Personal", "Shopping", "General"])
      else None
    else None
  }

  function Canonicalize(policy: Policy, path: string, d: char): string {
    var normalized := Normalize(policy, path, d);
    match Rewrite(NonEmpty(Split(normalized, d))) case Some(segments) => Join(segments, d) case None => normalized
  }

  // Normal form -------------------------------------------------------------------------------------

  /** The paths whose segments settle: all when case is kept, else the ASCII ones. */
  ghost predicate Covered(policy: Policy, path: string) {
    policy.TitleCased? ==> AsciiCasing(policy.t) && Ascii(path)
  }

  /** Neither a letter nor the space that stands between words; for IMAP a slash or a dot. */
  predicate Delimiter(d: char) { !IsLetter(d) && d != ' ' }

  /** A segment that processing leaves alone. */
  ghost predicate Settled(policy: Policy, s: string, d: char) {
    && s != "" && Tidy(s) && d !in s
    && (policy.TitleCased? ==> AsciiCasing(policy.t) && Ascii(s) && TitleCase(policy.t, s, true) == s)
  }

  lemma ProcessedIsSettled(policy: Policy, s: string, d: char)
    requires Covered(policy, s) && Delimiter(d) && d !in s
    ensures Process(policy, s) != "" ==> Settled(policy, Process(policy, s), d)
  {
    var clean := Sanitize(s);
    SanitizedIsTidy(s);
    SanitizedIsFrom(s);
    assert d !in clean;
    if policy.TitleCased? {
      var t := policy.t;
      TitleCaseShape(t, clean, true);
      TitleCaseIdempotent(t, clean, true);
      TitleCaseKeepsTidy(t, clean, true, true);
    }
  }

  lemma SettledStays(policy: Policy, s: string, d: char)
    requires Settled(policy, s, d)
    ensures Process(policy, s) == s
  {
    SanitizeKeepsTidy(s);
  }

  ghost predicate AllSettled(policy: Policy, segments: seq<string>, d: char) {
    forall i :: 0 <= i < |segments| ==> Settled(policy, segments[i], d)
  }

  ghost predicate AllCovered(policy: Policy, segments: seq<string>, d: char) {
    forall i :: 0 <= i < |segments| ==> Covered(policy, segments[i]) && d !in segments[i]
  }

  lemma {:induction false} ProcessAllIsSettled(policy: Policy, segments: seq<string>, d: char)
    requires Delimiter(d) && AllCovered(policy, segments, d)
    ensures AllSettled(policy, NonEmpty(ProcessAll(policy, segments)), d)
  {
    if segments != [] {
      ProcessedIsSettled(policy, segments[0], d);
      ProcessAllIsSettled(policy, segments[1..], d);
      assert ProcessAll(policy, segments)[1..] == ProcessAll(policy, segments[1..]);
    }
  }

  lemma PartsAreCovered(policy: Policy, path: string, d: char)
    requires Covered(policy, path)
    ensures AllCovered(policy, NonEmpty(Split(path, d)), d)
  {
    var parts, kept := Split(path, d), NonEmpty(Split(path, d));
    NonEmptyParts(parts);
    forall i | 0 <= i < |kept| ensures Covered(policy, kept[i]) && d !in kept[i] {
      assert kept[i] in parts;
      var k :| 0 <= k < |parts| && parts[k] == kept[i];
      SplitParts(path, d, k);
    }
  }

  /** Every segment of a normal path is settled. */
  lemma NormalIsSettled(policy: Policy, path: string, d: char)
    requires Covered(policy, path) && Delimiter(d)
    ensures AllSettled(policy, NormalSegments(policy, path, d), d)
  {
    PartsAreCovered(policy, path, d);
    ProcessAllIsSettled(policy, NonEmpty(Split(path, d)), d);
  }

  lemma {:induction false} ProcessAllKeeps(policy: Policy, segments: seq<string>, d: char)
    requires AllSettled(policy, segments, d)
    ensures ProcessAll(policy, segments) == segments
  {
    if segments != [] {
      var rest := segments[1..];
      assert forall i :: 0 <= i < |rest| ==> rest[i] == segments[i + 1];
      SettledStays(policy, segments[0], d);
      ProcessAllKeeps(policy, segments[1..], d);
      assert segments == [segments[0]] + segments[1..];
    }
  }

  /** Parts that are not empty and hold no delimiter. */
  predicate Parted(segments: seq<string>, d: char) {
    forall i :: 0 <= i < |segments| ==> segments[i] != "" && d !in segments[i]
  }

  /** Such parts come back from the joined path. */
  lemma PartsComeBack(segments: seq<string>, d: char)
    requires Parted(segments, d)
    ensures NonEmpty(Split(Join(segments, d), d)) == segments
  {
    NonEmptyParts(segments);
    if segments != [] {
      SplitJoin(segments, d);
    } else {
      assert Split("", d) == [""] && NonEmpty([""]) == [];
    }
  }

  /** Settled segments come back from the joined path. */
  lemma SettledSegments(policy: Policy, segments: seq<string>, d: char)
    requires AllSettled(policy, segments, d)
    ensures NonEmpty(Split(Join(segments, d), d)) == segments
    ensures NormalSegments(policy, Join(segments, d), d) == segments
  {
    assert forall i :: 0 <= i < |segments| ==> Settled(policy, segments[i], d);
    PartsComeBack(segments, d);
    ProcessAllKeeps(policy, segments, d);
    NonEmptyParts(segments);
  }

  lemma NormalizeIdempotent(policy: Policy, path: string, d: char)
    requires Covered(policy, path) && Delimiter(d)
    ensures Normalize(policy, Normalize(policy, path, d), d) == Normalize(policy, path, d)
  {
    NormalIsSettled(policy, path, d);
    SettledSegments(policy, NormalSegments(policy, path, d), d);
  }

  // Canonical form ----------------------------------------------------------------------------------

  predicate CapitalWord(s: string) {
    s != "" && 'A' <= s[0] <= 'Z' && forall i :: 1 <= i < |s| ==> 'a' <= s[i] <= 'z'
  }

  lemma {:induction false} LowercaseTail(t: Casing, s: string)
    requires AsciiCasing(t) && forall i :: 0 <= i < |s| ==> 'a' <= s[i] <= 'z'
    ensures TitleCase(t, s, false) == s
  {
    if s != [] {
      LowercaseTail(t, s[1..]);
      assert IsAscii(s[0]) && s == [s[0]] + s[1..];
    }
  }

  lemma CapitalWordIsSettled(policy: Policy, s: string, d: char)
    requires CapitalWord(s) && Delimiter(d) && (policy.TitleCased? ==> AsciiCasing(policy.t))
    ensures Settled(policy, s, d)
  {
    assert PlainWord(s);
    TidyWord(s, [], true);
    assert s + [] == s;
    if policy.TitleCased? {
      LowercaseTail(policy.t, s[1..]);
      assert IsAscii(s[0]) && s == [s[0]] + s[1..];
    }
  }

  lemma FixedNamesAreCapitalWords()
    ensures CapitalWord("Personal") && CapitalWord("Security") && CapitalWord("Alerts") && CapitalWord("General")
    ensures CapitalWord("Property") && CapitalWord("Shopping")
  {
  }

  lemma ContainerNames(first: string)
    requires ContainerName(first).Some?
    ensures var name := ContainerName(first).value;
            CapitalWord(name) && (name == "Personal" || |name| != 8)
  {
  }

  lemma RewrittenSegments(segments: seq<string>, i: nat)
    requires Rewrite(segments).Some? && i < |Rewrite(segments).value|
    ensures CapitalWord(Rewrite(segments).value[i]) || Rewrite(segments).value[i] in segments
  {
    FixedNamesAreCapitalWords();
    if |segments| == 1 && Lower(segments[0]) != "security" { ContainerNames(Lower(segments[0])); }
  }

  /** What a bare container is rewritten to is not a bare container. */
  lemma RewrittenIsNotBare(segments: seq<string>)
    requires Rewrite(segments).Some?
    ensures Rewrite(Rewrite(segments).value).None?
  {
    var out := Rewrite(segments).value;
    if |out| == 2 {
      var name := ContainerName(Lower(segments[0])).value;
      assert out == [name, "General"];
      ContainerNames(Lower(segments[0]));
      NotSecurity(name);
      GeneralIsALeaf(out);
    }
  }

  lemma NotSecurity(name: string)
    requires name == "Personal" || |name| != 8
    ensures Lower(name) != "security"
  {
    if name == "Personal" { assert Lower(name)[0] == 'p'; } else { assert |Lower(name)| != 8; }
  }

  lemma GeneralIsALeaf(out: seq<string>)
    requires |out| == 2 && out[1] == "General" && Lower(out[0]) != "security"
    ensures Rewrite(out).None?
  {
    assert |Lower(out[1])| == 7;
  }

  /** The segments of the canonical path. */
  function CanonicalSegments(policy: Policy, path: string, d: char): seq<string> {
    var segments := NormalSegments(policy, path, d);
    match Rewrite(segments) case Some(r) => r case None => segments
  }

  /** The case mappings bring in no delimiter. */
  ghost predicate KeepsDelimiter(policy: Policy, d: char) {
    Delimiter(d) && (policy.TitleCased? ==> KeepsFree(policy.t, d))
  }

  lemma ProcessedIsFree(policy: Policy, s: string, d: char)
    requires KeepsDelimiter(policy, d) && d !in s
    ensures d !in Process(policy, s)
  {
    SanitizedIsFrom(s);
    assert d !in Sanitize(s);
    if policy.TitleCased? { TitleCaseKeepsFree(policy.t, Sanitize(s), true, d); }
  }

  lemma {:induction false} ProcessAllIsParted(policy: Policy, segments: seq<string>, d: char)
    requires KeepsDelimiter(policy, d) && forall i :: 0 <= i < |segments| ==> d !in segments[i]
    ensures Parted(NonEmpty(ProcessAll(policy, segments)), d)
  {
    if segments != [] {
      ProcessedIsFree(policy, segments[0], d);
      ProcessAllIsParted(policy, segments[1..], d);
      assert ProcessAll(policy, segments)[1..] == ProcessAll(policy, segments[1..]);
    }
  }

  lemma NormalIsParted(policy: Policy, path: string, d: char)
    requires KeepsDelimiter(policy, d)
    ensures Parted(NormalSegments(policy, path, d), d)
  {
    PartsAreCovered(Preserve, path, d);
    ProcessAllIsParted(policy, NonEmpty(Split(path, d)), d);
  }

  lemma CapitalWordIsParted(s: string, d: char)
    requires CapitalWord(s) && Delimiter(d)
    ensures s != "" && d !in s
  {
  }

  /**
   * For every path: the canonical path joins segments that are not empty and hold no delimiter, that come
   * back from splitting it, and that do not name a bare container.
   */
  lemma CanonicalForm(policy: Policy, path: string, d: char)
    requires KeepsDelimiter(policy, d)
    ensures var segments := CanonicalSegments(policy, path, d);
            && Canonicalize(policy, path, d) == Join(segments, d)
            && Parted(segments, d)
            && Rewrite(segments).None?
            && NonEmpty(Split(Canonicalize(policy, path, d), d)) == segments
  {
    var normal := NormalSegments(policy, path, d);
    NormalIsParted(policy, path, d);
    PartsComeBack(normal, d);
    var segments := CanonicalSegments(policy, path, d);
    if Rewrite(normal).Some? {
      RewrittenIsNotBare(normal);
      forall i | 0 <= i < |segments| ensures segments[i] != "" && d !in segments[i] {
        RewrittenSegments(normal, i);
        if CapitalWord(segments[i]) { CapitalWordIsParted(segments[i], d); }
      }
    }
    PartsComeBack(segments, d);
  }

  /** Where case is kept or the path is ASCII, processing leaves the canonical path's segments alone. */
  lemma CanonicalIsSettled(policy: Policy, path: string, d: char)
    requires Covered(policy, path) && Delimiter(d)
    ensures var segments := CanonicalSegments(policy, path, d);
            Canonicalize(policy, path, d) == Join(segments, d) && AllSettled(policy, segments, d) && Rewrite(segments).None?
  {
    var normal := NormalSegments(policy, path, d);
    NormalIsSettled(policy, path, d);
    SettledSegments(policy, normal, d);
    var segments := CanonicalSegments(policy, path, d);
    if Rewrite(normal).Some? {
      RewrittenIsNotBare(normal);
      forall i | 0 <= i < |segments| ensures Settled(policy, segments[i], d) {
        RewrittenSegments(normal, i);
        if CapitalWord(segments[i]) { CapitalWordIsSettled(policy, segments[i], d); }
      }
    }
  }

  /** Canonicalizing twice is canonicalizing once, under both casing policies. */
  lemma CanonicalizeIdempotent(policy: Policy, path: string, d: char)
    requires Covered(policy, path) && Delimiter(d)
    ensures Canonicalize(policy, Canonicalize(policy, path, d), d) == Canonicalize(policy, path, d)
  {
    var segments := CanonicalSegments(policy, path, d);
    CanonicalIsSettled(policy, path, d);
    SettledSegments(policy, segments, d);
  }

  /** No character of a tidy segment is hostile, a control character or an ampersand, and spaces are its only white space. */
  lemma TidyIsHarmless(s: string, d: char)
    requires s != "" && Tidy(s) && d !in s
    ensures Harmless(s, d)
  {
    TidyChars(s, true);
    forall i | 0 <= i < |s| ensures s[i] == ' ' || !FolderWords.Separator(s[i]) { FolderWords.SeparatorIff(s[i]); }
  }

  /** Nothing that separates words but spaces, no ampersand and no delimiter. */
  predicate Harmless(s: string, d: char) {
    forall i :: 0 <= i < |s| ==> (s[i] == ' ' || !FolderWords.Separator(s[i])) && s[i] != '&' && s[i] != d
  }

  // No case variants ----------------------------------------------------------------------------------

  lemma {:induction false} NonEmptySame(a: seq<string>, b: seq<string>)
    requires AllSame(a, b)
    ensures AllSame(NonEmpty(a), NonEmpty(b))
  {
    if a != [] {
      assert Same(a[0], b[0]) && |Lower(a[0])| == |Lower(b[0])|;
      NonEmptySame(a[1..], b[1..]);
    }
  }

  lemma {:induction false} ProcessedAlike(t: Casing, a: seq<string>, b: seq<string>)
    requires AsciiCasing(t) && AllSame(a, b)
    ensures ProcessAll(TitleCased(t), a) == ProcessAll(TitleCased(t), b)
  {
    if a != [] {
      assert Same(a[0], b[0]);
      SanitizeSame(a[0], b[0]);
      TitleCaseForgetsCase(t, Sanitize(a[0]), Sanitize(b[0]), true);
      ProcessedAlike(t, a[1..], b[1..]);
    }
  }

  /** Under title case, any two paths that differ in ASCII case alone have one canonical path. */
  lemma NoCaseVariants(t: Casing, a: string, b: string, d: char)
    requires AsciiCasing(t) && Delimiter(d) && Same(a, b)
    ensures Canonicalize(TitleCased(t), a, d) == Canonicalize(TitleCased(t), b, d)
  {
    SplitSame(a, b, d);
    NonEmptySame(Split(a, d), Split(b, d));
    ProcessedAlike(t, NonEmpty(Split(a, d)), NonEmpty(Split(b, d)));
  }
}
