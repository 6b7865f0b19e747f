/** Making sure that the folder a message is to be filed under exists, against a server that may answer anything. */
module FolderCreation {
  import opened Common
  import opened FolderText
  import opened FolderPath

  datatype Folder = Folder(name: string, noselect: bool)

  /** A CREATE and the refresh behind it: whether the server agreed, and the listing unless refreshing fails. */
  datatype Answer = Answer(created: bool, listing: Option<seq<Folder>>)

  type Server = nat -> Answer

  /** The first folder of that name, case ignored. */
  function Find(folders: seq<Folder>, path: string): Option<Folder> {
    if folders == [] then None
    else if Same(folders[0].name, path) then Some(folders[0])
    else Find(folders[1..], path)
  }

  lemma {:induction false} FindIsExact(folders: seq<Folder>, path: string)
    ensures Find(folders, path).Some? <==> exists f :: f in folders && Same(f.name, path)
    ensures Find(folders, path).Some? ==> Find(folders, path).value in folders && Same(Find(folders, path).value.name, path)
  {
    if folders != [] {
      FindIsExact(folders[1..], path);
      assert folders == [folders[0]] + folders[1..];
    }
  }

  /** It is the first such folder of the list. */
  lemma {:induction false} FindIsFirst(folders: seq<Folder>, path: string, i: nat)
    requires i < |folders| && Same(folders[i].name, path) && forall j :: 0 <= j < i ==> !Same(folders[j].name, path)
    ensures Find(folders, path) == Some(folders[i])
  {
    if i > 0 {
      forall j | 0 <= j < i - 1 ensures !Same(folders[1..][j].name, path) { assert folders[1..][j] == folders[j + 1]; }
      FindIsFirst(folders[1..], path, i - 1);
    }
  }

  /** The selectable folder of that name, none when there is no such folder, an error when it cannot be selected. */
  function SelectableName(folders: seq<Folder>, requested: string): Result<Option<string>> {
    match Find(folders, requested)
    case None => Ok(None)
    case Some(f) => if f.noselect then Err("exists but is NOSELECT") else Ok(Some(f.name))
  }

  function Segments(target: string, d: char): seq<string> { NonEmpty(Split(target, d)) }

  /** The path of the first n segments. */
  function Prefix(segments: seq<string>, d: char, n: nat): string
    requires n <= |segments|
  {
    Join(segments[..n], d)
  }

  lemma {:induction false} JoinSnoc(parts: seq<string>, d: char, last: string)
    ensures Join(parts + [last], d) == if parts == [] then last else Join(parts, d) + ([d] + last)
  {
    if parts != [] {
      JoinSnoc(parts[1..], d, last);
      assert (parts + [last])[1..] == parts[1..] + [last];
      if |parts| > 1 {
        assert Join(parts, d) + ([d] + last) == parts[0] + ([d] + (Join(parts[1..], d) + ([d] + last)));
      }
    }
  }

  lemma PrefixStep(segments: seq<string>, d: char, i: nat, prefix: string)
    requires i < |segments|
    requires if i == 0 then prefix == "" else Same(prefix, Prefix(segments, d, i))
    ensures var longer := if i == 0 then segments[0] else prefix + [d] + segments[i];
            Same(longer, Prefix(segments, d, i + 1))
  {
    assert segments[..i + 1] == segments[..i] + [segments[i]];
    JoinSnoc(segments[..i], d, segments[i]);
    if i > 0 {
      SameConcat(prefix, [d] + segments[i], Prefix(segments, d, i), [d] + segments[i]);
      assert prefix + [d] + segments[i] == prefix + ([d] + segments[i]);
    }
  }

  /** The folder is listed under this very name and can be selected. */
  ghost predicate ListedSelectable(folders: seq<Folder>, name: string) { Folder(name, false) in folders }

  /** Every CREATE behind the first asks for a prefix of the path, under whatever case the server uses. */
  ghost predicate CreatesPrefixes(creates: seq<string>, segments: seq<string>, d: char, n: nat)
    requires n <= |segments|
  {
    |creates| <= 1 + n
    && forall i :: 1 <= i < |creates| ==> exists k :: 1 <= k <= n && Same(creates[i], Prefix(segments, d, k))
  }

  /** A round succeeds exactly when the listing it ends with has the folder, selectable if it is the last. */
  predicate SeenIn(listing: Option<seq<Folder>>, requested: string, isLast: bool, found: Result<string>, folders: seq<Folder>) {
    && (listing.Some? ==> folders == listing.value)
    && (found.Ok? <==>
          listing.Some? && Find(listing.value, requested).Some? && !(isLast && Find(listing.value, requested).value.noselect))
  }

  /** One round of the loop: the prefix exists, or is created and then listed. */
  method EnsurePrefix(requested: string, isLast: bool, listed: seq<Folder>, server: Server, created: seq<string>)
    returns (found: Result<string>, folders: seq<Folder>, creates: seq<string>)
    ensures found.Ok? ==> Same(found.value, requested) && exists f :: f in folders && f.name == found.value
    ensures found.Ok? && isLast ==> ListedSelectable(folders, found.value)
    ensures creates == created || creates == created + [requested]
    ensures creates == created <==> Find(listed, requested).Some?
    ensures SeenIn(if creates == created then Some(listed) else server(|created|).listing, requested, isLast, found, folders)
  {
    folders, creates := listed, created;
    var existing := Find(folders, requested);
    FindIsExact(folders, requested);
    if existing.None? {
      var answer := server(|creates|);
      creates := creates + [requested];
      if answer.listing.None? { return Err("refresh failed"), folders, creates; }
      folders := answer.listing.value;
      existing := Find(folders, requested);
      FindIsExact(folders, requested);
      if existing.None? {
        return Err(if answer.created then "not visible after refresh" else "CREATE failed"), folders, creates;
      }
    }
    if isLast && existing.value.noselect { return Err("exists but is NOSELECT"), folders, creates; }
    assert existing.value == Folder(existing.value.name, existing.value.noselect);
    found := Ok(existing.value.name);
  }

  /** The loop's prefix stands for the first n segments. */
  ghost predicate Reached(prefix: string, segments: seq<string>, d: char, n: nat)
    requires n <= |segments|
  {
    if n == 0 then prefix == "" else prefix != "" && Same(prefix, Prefix(segments, d, n))
  }

  ghost predicate NeverUnselectable(server: Server, target: string) {
    forall i, f :: server(i).listing.Some? && f in server(i).listing.value && Same(f.name, target) ==> !f.noselect
  }

  /** Every listing of the server has all prefixes of the path, and none that is the whole path is unselectable. */
  ghost predicate Cooperative(server: Server, segments: seq<string>, d: char) {
    forall i :: server(i).listing.Some? && Offers(server(i).listing.value, segments, d)
  }

  ghost predicate Offers(folders: seq<Folder>, segments: seq<string>, d: char) {
    && (forall n :: 0 < n <= |segments| ==> exists f :: f in folders && Same(f.name, Prefix(segments, d, n)))
    && (forall f :: f in folders && Same(f.name, Join(segments, d)) ==> !f.noselect)
  }

  /** Asking for a prefix in any case finds it. */
  lemma OfferedIsFound(folders: seq<Folder>, segments: seq<string>, d: char, n: nat, requested: string)
    requires Offers(folders, segments, d) && 0 < n <= |segments| && Same(requested, Prefix(segments, d, n))
    ensures Find(folders, requested).Some? && (n == |segments| ==> !Find(folders, requested).value.noselect)
  {
    FindIsExact(folders, requested);
    var f :| f in folders && Same(f.name, Prefix(segments, d, n));
    assert Same(f.name, requested);
    if n == |segments| { assert segments[..n] == segments; }
  }

  lemma OfferedIsEnsured(server: Server, segments: seq<string>, d: char, n: nat, requested: string,
                         listed: seq<Folder>, wasListed: bool, at: nat, found: Result<string>, folders: seq<Folder>)
    requires 0 < n <= |segments| && Same(requested, Prefix(segments, d, n))
    requires SeenIn(if wasListed then Some(listed) else server(at).listing, requested, n == |segments|, found, folders)
    ensures Cooperative(server, segments, d) && Offers(listed, segments, d) ==> found.Ok? && Offers(folders, segments, d)
  {
    if Cooperative(server, segments, d) && Offers(listed, segments, d) {
      OfferedIsFound(if wasListed then listed else server(at).listing.value, segments, d, n, requested);
    }
  }

  /** The prefix with the next segment behind it. */
  method LongerPrefix(segments: seq<string>, d: char, index: nat, prefix: string) returns (longer: string)
    requires index < |segments| && segments[index] != "" && Reached(prefix, segments, d, index)
    ensures longer != "" && Same(longer, Prefix(segments, d, index + 1))
    ensures longer == if prefix == "" then segments[index] else prefix + [d] + segments[index]
  {
    LongerIsPrefix(segments, d, index, prefix);
    longer := prefix;
    if longer != "" { longer := longer + [d]; }
    longer := longer + segments[index];
  }

  lemma LongerIsPrefix(segments: seq<string>, d: char, index: nat, prefix: string)
    requires index < |segments| && Reached(prefix, segments, d, index)
    ensures Same(if prefix == "" then segments[index] else prefix + [d] + segments[index], Prefix(segments, d, index + 1))
    ensures "" + segments[index] == segments[index]
  {
    PrefixStep(segments, d, index, prefix);
  }

  lemma FoundIsReached(segments: seq<string>, d: char, n: nat, longer: string, found: string)
    requires 0 < n <= |segments| && longer != "" && Same(longer, Prefix(segments, d, n)) && Same(found, longer)
    ensures Reached(found, segments, d, n)
  {
    SameLength(longer, found);
  }

  method EnsureSegment(segments: seq<string>, d: char, index: nat, prefix: string, listed: seq<Folder>, server: Server, created: seq<string>)
    returns (found: Result<string>, folders: seq<Folder>, creates: seq<string>)
    requires index < |segments| && segments[index] != "" && Reached(prefix, segments, d, index)
    requires created != [] && CreatesPrefixes(created, segments, d, index)
    ensures found.Ok? ==> Reached(found.value, segments, d, index + 1)
    ensures found.Ok? && index == |segments| - 1 ==> ListedSelectable(folders, found.value)
    ensures creates != [] && creates[0] == created[0] && CreatesPrefixes(creates, segments, d, index + 1)
    ensures CreatesPrefixes(creates, segments, d, |segments|)
    ensures Cooperative(server, segments, d) && Offers(listed, segments, d) ==> found.Ok? && Offers(folders, segments, d)
  {
    var longer := LongerPrefix(segments, d, index, prefix);
    found, folders, creates := EnsurePrefix(longer, index == |segments| - 1, listed, server, created);
    RoundOver(segments, d, index, longer, listed, server, created, creates, found, folders);
  }

  /** What a round has come to. */
  lemma RoundOver(segments: seq<string>, d: char, index: nat, longer: string, listed: seq<Folder>, server: Server,
                  created: seq<string>, creates: seq<string>, found: Result<string>, folders: seq<Folder>)
    requires index < |segments| && longer != "" && Same(longer, Prefix(segments, d, index + 1))
    requires created != [] && CreatesPrefixes(created, segments, d, index) && (creates == created || creates == created + [longer])
    requires SeenIn(if creates == created then Some(listed) else server(|created|).listing, longer, index == |segments| - 1, found, folders)
    requires found.Ok? ==> Same(found.value, longer)
    ensures found.Ok? ==> Reached(found.value, segments, d, index + 1)
    ensures creates != [] && creates[0] == created[0] && CreatesPrefixes(creates, segments, d, index + 1)
    ensures CreatesPrefixes(creates, segments, d, |segments|)
    ensures Cooperative(server, segments, d) && Offers(listed, segments, d) ==> found.Ok? && Offers(folders, segments, d)
  {
    OneMoreCreate(created, creates, longer, segments, d, index);
    OfferedIsEnsured(server, segments, d, index + 1, longer, listed, creates == created, |created|, found, folders);
    if found.Ok? { FoundIsReached(segments, d, index + 1, longer, found.value); }
  }

  /** The second attempt: segment by segment. */
  method EnsureBySegments(segments: seq<string>, d: char, listed: seq<Folder>, server: Server, first: string)
    returns (r: Result<string>, folders: seq<Folder>, creates: seq<string>)
    requires forall i :: 0 <= i < |segments| ==> segments[i] != ""
    ensures r.Ok? && segments != [] ==>
      ListedSelectable(folders, r.value) && Same(r.value, Prefix(segments, d, |segments|))
    ensures segments == [] ==> r == Ok("") && folders == listed && creates == [first]
    ensures Cooperative(server, segments, d) && Offers(listed, segments, d) ==> r.Ok?
    ensures creates != [] && creates[0] == first && CreatesPrefixes(creates, segments, d, |segments|)
  {
    folders, creates := listed, [first];
    var prefix := "";
    for index := 0 to |segments|
      invariant Reached(prefix, segments, d, index)
      invariant index == 0 ==> folders == listed && creates == [first]
      invariant Cooperative(server, segments, d) && Offers(listed, segments, d) ==> Offers(folders, segments, d)
      invariant index > 0 && index == |segments| ==> ListedSelectable(folders, prefix)
      invariant creates != [] && creates[0] == first && CreatesPrefixes(creates, segments, d, index)
    {
      var found;
      found, folders, creates := EnsureSegment(segments, d, index, prefix, folders, server, creates);
      if found.Err? { return Err(found.error), folders, creates; }
      prefix := found.value;
    }
    r := Ok(prefix);
  }

  lemma SameLength(a: string, b: string)
    requires Same(a, b)
    ensures |a| == |b|
  {
    assert |Lower(a)| == |Lower(b)|;
  }

  lemma OneMoreCreate(before: seq<string>, creates: seq<string>, prefix: string, segments: seq<string>, d: char, index: nat)
    requires index < |segments| && before != [] && CreatesPrefixes(before, segments, d, index)
    requires creates == before || creates == before + [prefix]
    requires Same(prefix, Prefix(segments, d, index + 1))
    ensures creates[0] == before[0] && CreatesPrefixes(creates, segments, d, index + 1)
    ensures CreatesPrefixes(creates, segments, d, |segments|)
  {
    forall i | 1 <= i < |creates| ensures exists k :: 1 <= k <= index + 1 && Same(creates[i], Prefix(segments, d, k)) {
      if i < |before| { assert creates[i] == before[i]; } else { assert Same(creates[i], Prefix(segments, d, index + 1)); }
    }
  }

  /**
   * Whatever the server answers, success names a selectable folder of the returned listing that is the
   * target, case ignored, or the path of the target's segments; only a target without segments can
   * succeed with the empty name instead. A listed target is never created, and nothing is created but
   * the target and the prefixes of its path.
   */
  method EnsureFolderPathForFiling(target: string, d: char, listed: seq<Folder>, server: Server)
    returns (r: Result<string>, folders: seq<Folder>, creates: seq<string>)
    ensures r.Ok? ==>
      || (ListedSelectable(folders, r.value)
          && (Same(r.value, target) || Same(r.value, Join(Segments(target, d), d))))
      || (r.value == "" && Segments(target, d) == [])
    ensures Find(listed, target).Some? ==>
      && creates == [] && folders == listed
      && (r.Err? <==> Find(listed, target).value.noselect)
      && (r.Ok? ==> r.value == Find(listed, target).value.name)
    ensures Find(listed, target).None? && server(0).listing.Some? && Find(server(0).listing.value, target).Some? ==>
      && creates == [target] && folders == server(0).listing.value
      && (r.Err? <==> Find(folders, target).value.noselect)
      && (r.Ok? ==> r.value == Find(folders, target).value.name)
    ensures Segments(target, d) == [] && Find(listed, target).None? ==>
      (server(0).listing.Some? && Find(server(0).listing.value, target).None? ==> r == Ok(""))
    ensures Find(listed, target).None? ==> creates != []
    ensures Find(listed, target).None? && Cooperative(server, Segments(target, d), d) && NeverUnselectable(server, target) ==> r.Ok?
    ensures creates != [] ==> creates[0] == target && CreatesPrefixes(creates, Segments(target, d), d, |Segments(target, d)|)
  {
    folders, creates := listed, [];
    FindIsExact(folders, target);
    var name := SelectableName(folders, target);
    if name.Err? { return Err(name.error), folders, creates; }
    if name.value.Some? { return NameOf(folders, target), folders, creates; }
    var answer := server(0);
    creates := [target];
    if answer.listing.None? { return Err("refresh failed"), folders, creates; }
    folders := answer.listing.value;
    FindIsExact(folders, target);
    name := SelectableName(folders, target);
    if name.Err? { return Err(name.error), folders, creates; }
    if name.value.Some? { return NameOf(folders, target), folders, creates; }
    var segments := Segments(target, d);
    NonEmptyParts(Split(target, d));
    assert forall i :: 0 <= i < |segments| ==> segments[i] in segments;
    assert segments[..|segments|] == segments;
    r, folders, creates := EnsureBySegments(segments, d, folders, server, target);
  }

  function NameOf(folders: seq<Folder>, target: string): (r: Result<string>)
    requires Find(folders, target).Some? && !Find(folders, target).value.noselect
    ensures r.Ok? && ListedSelectable(folders, r.value) && Same(r.value, target)
  {
    FindIsExact(folders, target);
    var f := Find(folders, target).value;
    assert f == Folder(f.name, false);
    Ok(f.name)
  }

  /** A canonical path is the path of its segments, and has some unless it is empty. */
  lemma CanonicalTargetIsItsSegments(policy: Policy, path: string, d: char)
    requires KeepsDelimiter(policy, d)
    ensures var target := Canonicalize(policy, path, d);
            Join(Segments(target, d), d) == target && (target != "" ==> Segments(target, d) != [])
  {
    CanonicalForm(policy, path, d);
  }

  /** For a canonical target that is not empty, success means that folder, listed and selectable. */
  method EnsureCanonicalFolder(policy: Policy, path: string, d: char, listed: seq<Folder>, server: Server)
    returns (r: Result<string>, folders: seq<Folder>)
    requires KeepsDelimiter(policy, d)
    ensures Canonicalize(policy, path, d) != "" && r.Ok? ==>
      ListedSelectable(folders, r.value) && Same(r.value, Canonicalize(policy, path, d))
  {
    var target := Canonicalize(policy, path, d);
    CanonicalTargetIsItsSegments(policy, path, d);
    var creates;
    r, folders, creates := EnsureFolderPathForFiling(target, d, listed, server);
  }
}
