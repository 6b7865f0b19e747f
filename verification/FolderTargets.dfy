/** Which folder a path comes down to. */
module FolderTargets {
  import opened Common
  import opened FolderText
  import opened FolderPath

  // Normal paths, part by part --------------------------------------------------------------------------

  lemma {:induction false} SplitAround(a: string, b: string, d: char)
    ensures Split(a + ([d] + b), d) == Split(a, d) + Split(b, d)
  {
    if a == [] {
      assert a + ([d] + b) == [d] + b && ([d] + b)[1..] == b;
    } else {
      var tail := a[1..] + ([d] + b);
      assert a + ([d] + b) == [a[0]] + tail && a == [a[0]] + a[1..];
      SplitAround(a[1..], b, d);
      SplitCons(a[0], tail, d);
      SplitCons(a[0], a[1..], d);
      Grows(a[0], Split(a[1..], d), Split(b, d));
    }
  }

  lemma SplitCons(c: char, s: string, d: char)
    ensures Split([c] + s, d) == if c == d then [""] + Split(s, d) else [[c] + Split(s, d)[0]] + Split(s, d)[1..]
  {
    assert ([c] + s)[1..] == s;
  }

  lemma Grows(c: char, first: seq<string>, more: seq<string>)
    requires first != []
    ensures [""] + (first + more) == ([""] + first) + more
    ensures [[c] + (first + more)[0]] + (first + more)[1..] == ([[c] + first[0]] + first[1..]) + more
  {
  }

  lemma {:induction false} NonEmptyConcat(a: seq<string>, b: seq<string>)
    ensures NonEmpty(a + b) == NonEmpty(a) + NonEmpty(b)
  {
    if a == [] {
      assert a + b == b;
    } else {
      assert (a + b)[1..] == a[1..] + b;
      NonEmptyConcat(a[1..], b);
    }
  }

  lemma {:induction false} ProcessAllConcat(policy: Policy, a: seq<string>, b: seq<string>)
    ensures ProcessAll(policy, a + b) == ProcessAll(policy, a) + ProcessAll(policy, b)
  {
    if a == [] {
      assert a + b == b;
    } else {
      assert (a + b)[1..] == a[1..] + b;
      ProcessAllConcat(policy, a[1..], b);
    }
  }

  /** The segments of a normal path are those of its two sides at any delimiter. */
  lemma NormalizeSeparates(policy: Policy, a: string, b: string, d: char)
    ensures NormalSegments(policy, a + ([d] + b), d) == NormalSegments(policy, a, d) + NormalSegments(policy, b, d)
  {
    SplitAround(a, b, d);
    NonEmptyConcat(Split(a, d), Split(b, d));
    ProcessAllConcat(policy, NonEmpty(Split(a, d)), NonEmpty(Split(b, d)));
    NonEmptyConcat(ProcessAll(policy, NonEmpty(Split(a, d))), ProcessAll(policy, NonEmpty(Split(b, d))));
  }

  /** A path without delimiter is one segment, sanitized, and title-cased under that policy, or none if nothing is left. */
  lemma NormalizeOne(policy: Policy, a: string, d: char)
    requires d !in a
    ensures var clean := Sanitize(a);
            var name := match policy case Preserve => clean case TitleCased(t) => TitleCase(t, clean, true);
            NormalSegments(policy, a, d) == if a == "" || name == "" then [] else [name]
  {
    SplitPrefix(a, "", d);
    assert NonEmpty([a]) == if a == "" then [] else [a];
    if a != "" {
      assert [a][1..] == [] && ProcessAll(policy, []) == [] && ProcessAll(policy, [a]) == [Process(policy, a)];
    }
  }

  // Bare containers ---------------------------------------------------------------------------------------

  lemma Different()
    ensures "personal" != "security" && "financial" != "education" && "social" != "health" && "health" != "travel" && "travel" != "social"
    ensures "property" != "security" && "shopping" != "security" && "property" != "shopping"
  {
    assert "personal"[0] != "security"[0] && "financial"[0] != "education"[0];
    assert "social"[0] != "health"[0] && "health"[0] != "travel"[0] && "travel"[0] != "social"[0];
    assert "property"[0] != "security"[0] && "shopping"[1] != "security"[1] && "property"[0] != "shopping"[0];
  }

  /** A bare container, whatever its case, is filed under General. */
  lemma ContainerGoesToGeneral(s: string)
    ensures Lower(s) == "personal" ==> Rewrite([s]) == Some(["Personal", "General"])
    ensures Lower(s) == "work" ==> Rewrite([s]) == Some(["Work", "General"])
    ensures Lower(s) == "financial" ==> Rewrite([s]) == Some(["Financial", "General"])
    ensures Lower(s) == "social" ==> Rewrite([s]) == Some(["Social", "General"])
    ensures Lower(s) == "education" ==> Rewrite([s]) == Some(["Education", "General"])
    ensures Lower(s) == "health" ==> Rewrite([s]) == Some(["Health", "General"])
    ensures Lower(s) == "travel" ==> Rewrite([s]) == Some(["Travel", "General"])
    ensures Lower(s) == "newsletters" ==> Rewrite([s]) == Some(["Newsletters", "General"])
  {
    Different();
    ContainerNamed(Lower(s));
  }

  lemma ContainerNamed(first: string)
    ensures first == "personal" ==> ContainerName(first) == Some("Personal")
    ensures first == "work" ==> ContainerName(first) == Some("Work")
    ensures first == "financial" ==> ContainerName(first) == Some("Financial")
    ensures first == "social" ==> ContainerName(first) == Some("Social")
    ensures first == "education" ==> ContainerName(first) == Some("Education")
    ensures first == "health" ==> ContainerName(first) == Some("Health")
    ensures first == "travel" ==> ContainerName(first) == Some("Travel")
    ensures first == "newsletters" ==> ContainerName(first) == Some("Newsletters")
  {
    Different();
  }

  /** Security belongs under Personal, with Alerts when it stands alone. */
  lemma SecurityGoesToPersonal(s: string, x: string)
    requires Lower(s) == "security"
    ensures Rewrite([s]) == Some(["Personal", "Security", "Alerts"])
    ensures Rewrite([s, x]) == Some(["Personal", "Security", x])
  {
  }

  /** And so do three folders directly under Personal that only hold others. */
  lemma UnderPersonal(s: string, x: string)
    requires Lower(s) == "personal"
    ensures Lower(x) == "security" ==> Rewrite([s, x]) == Some(["Personal", "Security", "Alerts"])
    ensures Lower(x) == "property" ==> Rewrite([s, x]) == Some(["Personal", "Property", "General"])
    ensures Lower(x) == "shopping" ==> Rewrite([s, x]) == Some(["Personal", "Shopping", "General"])
  {
    Different();
    if Lower(x) == "property" {
      PropertyStays(s, x);
    } else if Lower(x) == "shopping" {
      ShoppingStays(s, x);
    }
  }

  lemma PropertyStays(s: string, x: string)
    requires Lower(s) == "personal" && Lower(x) == "property"
    ensures Rewrite([s, x]) == Some(["Personal", "Property", "General"])
  {
    Different();
  }

  lemma ShoppingStays(s: string, x: string)
    requires Lower(s) == "personal" && Lower(x) == "shopping"
    ensures Rewrite([s, x]) == Some(["Personal", "Shopping", "General"])
  {
    Different();
  }

  /** The paths that are rewritten. */
  predicate Bare(segments: seq<string>) {
    || (|segments| == 1 && (BareTop(Lower(segments[0])) || Lower(segments[0]) == "security"))
    || (|segments| == 2 && (Lower(segments[0]) == "security" || (Lower(segments[0]) == "personal" && BareBelow(Lower(segments[1])))))
  }

  predicate BareTop(first: string) {
    || first == "personal" || first == "work" || first == "financial" || first == "social"
    || first == "education" || first == "health" || first == "travel" || first == "newsletters"
  }

  predicate BareBelow(second: string) { second == "security" || second == "property" || second == "shopping" }

  /** No other path is rewritten. */
  lemma OnlyBareIsRewritten(segments: seq<string>)
    ensures Rewrite(segments).Some? <==> Bare(segments)
  {
  }

  /** So a path is canonical as it is normal unless it is bare. */
  lemma OthersStayNormal(policy: Policy, path: string, d: char)
    requires KeepsDelimiter(policy, d) && !Bare(NormalSegments(policy, path, d))
    ensures Canonicalize(policy, path, d) == Normalize(policy, path, d)
  {
    NormalIsParted(policy, path, d);
    PartsComeBack(NormalSegments(policy, path, d), d);
    if Rewrite(NormalSegments(policy, path, d)).Some? { OnlyBareIsRewritten(NormalSegments(policy, path, d)); }
  }

  /** And one that is bare is filed under what its segments are rewritten to. */
  lemma BareIsRewritten(policy: Policy, path: string, d: char)
    requires KeepsDelimiter(policy, d) && Rewrite(NormalSegments(policy, path, d)).Some?
    ensures Canonicalize(policy, path, d) == Join(Rewrite(NormalSegments(policy, path, d)).value, d)
  {
    NormalIsParted(policy, path, d);
    PartsComeBack(NormalSegments(policy, path, d), d);
  }
}
