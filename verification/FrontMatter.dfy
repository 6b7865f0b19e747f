/** Splitting an agent specification into its front matter and its prompt. */
module FrontMatter {
  import opened Common
  import opened FolderText
  import FolderWords

  const FENCE: string := "+++"

  /** trim_line: without the carriage returns at the end. */
  function TrimLine(line: string): string {
    if line != "" && line[|line| - 1] == '\r' then TrimLine(line[..|line| - 1]) else line
  }

  predicate IsFence(line: string) { TrimLine(line) == FENCE }

  lemma {:induction false} TrimLineIsPrefix(line: string)
    ensures |TrimLine(line)| <= |line| && TrimLine(line) == line[..|TrimLine(line)|]
    ensures forall i :: |TrimLine(line)| <= i < |line| ==> line[i] == '\r'
    ensures TrimLine(line) != "" ==> TrimLine(line)[|TrimLine(line)| - 1] != '\r'
  {
    if line != "" && line[|line| - 1] == '\r' {
      TrimLineIsPrefix(line[..|line| - 1]);
      forall i | |TrimLine(line)| <= i < |line| ensures line[i] == '\r' {
        if i < |line| - 1 { assert line[i] == line[..|line| - 1][i]; }
      }
    }
  }

  /** A fence is three plus signs with nothing but carriage returns behind them. */
  lemma FenceIff(line: string)
    ensures IsFence(line) <==>
      |line| >= 3 && line[0] == line[1] == line[2] == '+' && forall i :: 3 <= i < |line| ==> line[i] == '\r'
  {
    var n := |TrimLine(line)|;
    TrimLineIsPrefix(line);
    assert FENCE[0] == '+' && FENCE[1] == '+' && FENCE[2] == '+';
    if |line| >= 3 && line[0] == line[1] == line[2] == '+' && forall i :: 3 <= i < |line| ==> line[i] == '\r' {
      assert n == 3;
      assert TrimLine(line) == FENCE;
    }
    if IsFence(line) {
      assert line[..n][0] == line[0] && line[..n][1] == line[1] && line[..n][2] == line[2];
    }
  }

  function Lines(content: string): seq<string> { Split(content, '\n') }

  // Composing a specification -----------------------------------------------------------------------

  /** The text of whole lines, each with its newline. */
  function Text(lines: seq<string>): string {
    if lines == [] then "" else lines[0] + (['\n'] + Text(lines[1..]))
  }

  /**
   * A fence line, the lines of the front matter, a second fence line, and what is behind its newline;
   * nothing when the second fence ends the text without one.
   */
  datatype Parts = Parts(first: string, matter: seq<string>, second: string, rest: Option<string>)

  predicate IsLine(line: string) { '\n' !in line }

  /** No line of the front matter is a fence. */
  predicate WellFormed(p: Parts) {
    && IsLine(p.first) && IsFence(p.first)
    && (forall i :: 0 <= i < |p.matter| ==> IsLine(p.matter[i]) && !IsFence(p.matter[i]))
    && IsLine(p.second) && IsFence(p.second)
  }

  function Tail(p: Parts): string {
    match p.rest case Some(r) => p.second + (['\n'] + r) case None => p.second
  }

  function Compose(p: Parts): string { p.first + (['\n'] + (Text(p.matter) + Tail(p))) }

  /** The front matter and the prompt. */
  function Meaning(p: Parts): (string, string) {
    (Text(p.matter), match p.rest case Some(r) => Trim(r) case None => "")
  }

  // What splitting does -------------------------------------------------------------------------------

  /** The first fence at or behind line k; the number of lines if there is none. */
  function FenceFrom(lines: seq<string>, k: nat): nat
    requires k <= |lines|
    decreases |lines| - k
  {
    if k == |lines| || IsFence(lines[k]) then k else FenceFrom(lines, k + 1)
  }

  /** The line of the closing fence, if the text is a specification at all. */
  function ClosingFence(lines: seq<string>): Option<nat>
    requires lines != []
  {
    if IsFence(lines[0]) && FenceFrom(lines, 1) < |lines| then Some(FenceFrom(lines, 1)) else None
  }

  lemma {:induction false} FenceFromIsFirst(lines: seq<string>, k: nat)
    requires k <= |lines|
    ensures k <= FenceFrom(lines, k) <= |lines|
    ensures FenceFrom(lines, k) < |lines| ==> IsFence(lines[FenceFrom(lines, k)])
    ensures forall i :: k <= i < FenceFrom(lines, k) ==> !IsFence(lines[i])
    decreases |lines| - k
  {
    if k < |lines| && !IsFence(lines[k]) { FenceFromIsFirst(lines, k + 1); }
  }

  /** The parts a text with a closing fence at line n consists of. */
  function PartsAt(lines: seq<string>, n: nat): Parts
    requires 0 < n < |lines|
  {
    Parts(lines[0], lines[1..n], lines[n], if n == |lines| - 1 then None else Some(Join(lines[n + 1..], '\n')))
  }

  /** The result of splitting: none for an error. */
  function SplitResult(content: string): Option<(string, string)> {
    var lines := Lines(content);
    match ClosingFence(lines)
    case None => None
    case Some(n) => FenceFromIsFirst(lines, 1); Some(Meaning(PartsAt(lines, n)))
  }

  const EMPTY: string := "agent spec is empty"
  const NO_START: string := "agent spec must start with +++ frontmatter"
  const NO_END: string := "agent spec frontmatter is missing closing +++"

  /** Why a text is not a specification. */
  function SplitError(content: string): string {
    if content == "" then EMPTY else if !IsFence(Lines(content)[0]) then NO_START else NO_END
  }

  // The scan ------------------------------------------------------------------------------------------

  /** What the scan knows: the lines read so far, where the current one starts, and that none was a closing fence. */
  ghost predicate Scanned(content: string, lines: seq<string>, lineStart: nat, idx: nat) {
    && lineStart <= idx <= |content|
    && Lines(content) == lines + Lines(content[lineStart..])
    && IsLine(content[lineStart..idx])
    && (lines != [] ==> IsFence(lines[0]))
    && (forall i :: 1 <= i < |lines| ==> !IsFence(lines[i]))
  }

  lemma LineRead(content: string, lineStart: nat, idx: nat)
    requires lineStart <= idx < |content| && content[idx] == '\n' && IsLine(content[lineStart..idx])
    ensures Lines(content[lineStart..]) == [content[lineStart..idx]] + Lines(content[idx + 1..])
  {
    var line, rest := content[lineStart..idx], content[idx + 1..];
    assert content[lineStart..] == line + (['\n'] + rest);
    SplitPrefix(line, rest, '\n');
  }

  lemma LastLine(content: string, lineStart: nat)
    requires lineStart <= |content| && IsLine(content[lineStart..])
    ensures Lines(content[lineStart..]) == [content[lineStart..]]
  {
    SplitPrefix(content[lineStart..], "", '\n');
  }

  lemma LineScanned(content: string, lines: seq<string>, lineStart: nat, idx: nat)
    requires Scanned(content, lines, lineStart, idx) && idx < |content| && content[idx] == '\n'
    requires lines == [] <==> IsFence(content[lineStart..idx])
    ensures Scanned(content, lines + [content[lineStart..idx]], idx + 1, idx + 1)
  {
    LineRead(content, lineStart, idx);
    assert content[idx + 1..idx + 1] == [];
  }

  lemma {:induction false} FenceAt(lines: seq<string>, k: nat, n: nat)
    requires k <= n < |lines| && IsFence(lines[n]) && forall i :: k <= i < n ==> !IsFence(lines[i])
    ensures FenceFrom(lines, k) == n
    decreases n - k
  {
    if k < n { FenceAt(lines, k + 1, n); }
  }

  lemma {:induction false} NoFence(lines: seq<string>, k: nat)
    requires k <= |lines| && forall i :: k <= i < |lines| ==> !IsFence(lines[i])
    ensures FenceFrom(lines, k) == |lines|
    decreases |lines| - k
  {
    if k < |lines| { NoFence(lines, k + 1); }
  }

  lemma ResultAtNewline(content: string, lines: seq<string>, lineStart: nat, idx: nat)
    requires Scanned(content, lines, lineStart, idx) && idx < |content| && content[idx] == '\n'
    requires lines != [] && IsFence(content[lineStart..idx])
    ensures SplitResult(content) == Some((Text(lines[1..]), Trim(content[idx + 1..])))
  {
    var n, rest := |lines|, content[idx + 1..];
    var all := lines + ([content[lineStart..idx]] + Lines(rest));
    LineRead(content, lineStart, idx);
    assert Lines(content) == all && all[n] == content[lineStart..idx];
    FenceAt(all, 1, n);
    assert all[1..n] == lines[1..] && all[n + 1..] == Lines(rest);
    JoinSplit(rest, '\n');
  }

  lemma ResultAtEnd(content: string, lines: seq<string>, lineStart: nat)
    requires Scanned(content, lines, lineStart, |content|)
    ensures SplitResult(content) ==
      if lines != [] && IsFence(content[lineStart..]) then Some((Text(lines[1..]), "")) else None
    ensures IsFence(Lines(content)[0]) <==> lines != [] || IsFence(content[lineStart..])
  {
    var n, last := |lines|, content[lineStart..];
    var all := lines + [last];
    assert content[lineStart..|content|] == last;
    LastLine(content, lineStart);
    assert Lines(content) == all;
    if n > 0 {
      if IsFence(last) { FenceAt(all, 1, n); assert all[1..n] == lines[1..]; } else { NoFence(all, 1); }
    } else {
      NoFence(all, 1);
    }
  }

  lemma {:induction false} TextSnoc(lines: seq<string>, last: string)
    ensures Text(lines + [last]) == Text(lines) + (last + ['\n'])
  {
    if lines == [] {
      assert [last][1..] == [];
    } else {
      assert (lines + [last])[1..] == lines[1..] + [last];
      TextSnoc(lines[1..], last);
    }
  }

  method SplitFrontmatter(content: string) returns (r: Result<(string, string)>)
    ensures r.Ok? ==> SplitResult(content) == Some(r.value)
    ensures r.Err? ==> SplitResult(content) == None && r.error == SplitError(content)
    ensures r.Err? ==>
      r.error == if content == "" then "agent spec is empty"
                 else if IsFence(Lines(content)[0]) then "agent spec frontmatter is missing closing +++"
                 else "agent spec must start with +++ frontmatter"
  {
    if content == "" {
      assert Lines(content) == [""];
      return Err(EMPTY);
    }
    var lineStart, lineIndex, firstLineEnd := 0, 0, 0;
    ghost var lines: seq<string> := [];
    assert content[0..] == content && Lines(content) == [] + Lines(content);
    for idx := 0 to |content|
      invariant Scanned(content, lines, lineStart, idx) && lineIndex == |lines|
      invariant lines != [] ==> firstLineEnd <= lineStart && content[firstLineEnd..lineStart] == Text(lines[1..])
    {
      if content[idx] != '\n' {
        assert content[lineStart..idx + 1] == content[lineStart..idx] + [content[idx]];
        continue;
      }
      var line := TrimLine(content[lineStart..idx]);
      if lineIndex == 0 {
        if line != FENCE {
          LineRead(content, lineStart, idx);
          assert Lines(content)[0] == content[lineStart..idx];
          return Err(NO_START);
        }
        firstLineEnd := idx + 1;
      } else if line == FENCE {
        ResultAtNewline(content, lines, lineStart, idx);
        return Ok((content[firstLineEnd..lineStart], Trim(content[idx + 1..])));
      }
      LineScanned(content, lines, lineStart, idx);
      OneMoreLine(content, lines, firstLineEnd, lineStart, idx);
      lines := lines + [content[lineStart..idx]];
      lineStart := idx + 1;
      lineIndex := lineIndex + 1;
    }
    ResultAtEnd(content, lines, lineStart);
    var lastLine := TrimLine(content[lineStart..]);
    if lineIndex == 0 {
      if lastLine != FENCE { return Err(NO_START); }
    } else if lastLine == FENCE {
      return Ok((content[firstLineEnd..lineStart], ""));
    }
    r := Err(NO_END);
  }

  /** The front matter's text grows by the line just read, unless that was the first fence. */
  lemma OneMoreLine(content: string, lines: seq<string>, firstLineEnd: nat, lineStart: nat, idx: nat)
    requires lineStart <= idx < |content| && content[idx] == '\n'
    requires if lines == [] then firstLineEnd == idx + 1
             else firstLineEnd <= lineStart && content[firstLineEnd..lineStart] == Text(lines[1..])
    ensures firstLineEnd <= idx + 1
    ensures content[firstLineEnd..idx + 1] == Text((lines + [content[lineStart..idx]])[1..])
  {
    var line := content[lineStart..idx];
    if lines == [] {
      assert ([] + [line])[1..] == [];
    } else {
      assert (lines + [line])[1..] == lines[1..] + [line];
      TextSnoc(lines[1..], line);
      assert content[firstLineEnd..idx + 1] == content[firstLineEnd..lineStart] + (line + ['\n']);
    }
  }

  // Splitting and composing are inverse -----------------------------------------------------------------

  lemma {:induction false} LinesOfText(lines: seq<string>, rest: string)
    requires forall i :: 0 <= i < |lines| ==> IsLine(lines[i])
    ensures Lines(Text(lines) + rest) == lines + Lines(rest)
  {
    if lines == [] {
      assert Text(lines) + rest == rest;
    } else {
      var more := Text(lines[1..]) + rest;
      assert Text(lines) + rest == lines[0] + (['\n'] + more);
      SplitPrefix(lines[0], more, '\n');
      LinesOfText(lines[1..], rest);
    }
  }

  function TailLines(p: Parts): seq<string> {
    match p.rest case Some(r) => [p.second] + Lines(r) case None => [p.second]
  }

  lemma LinesOfComposed(p: Parts)
    requires IsLine(p.first) && IsLine(p.second) && forall i :: 0 <= i < |p.matter| ==> IsLine(p.matter[i])
    ensures Lines(Compose(p)) == [p.first] + (p.matter + TailLines(p))
  {
    SplitPrefix(p.first, Text(p.matter) + Tail(p), '\n');
    LinesOfText(p.matter, Tail(p));
    SplitPrefix(p.second, match p.rest case Some(r) => r case None => "", '\n');
  }

  /** Splitting a composed specification gives its front matter, character by character, and its trimmed prompt. */
  lemma SplittingInvertsComposing(p: Parts)
    requires WellFormed(p)
    ensures SplitResult(Compose(p)) == Some(Meaning(p))
  {
    var lines, n := Lines(Compose(p)), 1 + |p.matter|;
    ComposedClosesAt(p);
    assert PartsAt(lines, n).matter == p.matter;
    if p.rest.Some? { JoinSplit(p.rest.value, '\n'); }
  }

  /** The second fence is the closing one, and the lines around it are the parts. */
  lemma ComposedClosesAt(p: Parts)
    requires WellFormed(p)
    ensures var lines, n := Lines(Compose(p)), 1 + |p.matter|;
            && n < |lines| && ClosingFence(lines) == Some(n)
            && lines[1..n] == p.matter
            && (p.rest.None? <==> n == |lines| - 1)
            && (p.rest.Some? ==> lines[n + 1..] == Lines(p.rest.value))
  {
    LinesOfComposed(p);
    var lines, n := Lines(Compose(p)), 1 + |p.matter|;
    assert lines[0] == p.first && lines[n] == p.second;
    assert forall i :: 1 <= i < n ==> lines[i] == p.matter[i - 1];
    FenceAt(lines, 1, n);
  }

  lemma PartsOfLines(lines: seq<string>, n: nat)
    requires 0 < n < |lines| && IsFence(lines[0]) && IsFence(lines[n])
    requires forall i :: 0 <= i < |lines| ==> IsLine(lines[i])
    requires forall i :: 1 <= i < n ==> !IsFence(lines[i])
    ensures WellFormed(PartsAt(lines, n)) && Lines(Compose(PartsAt(lines, n))) == lines
  {
    var p := PartsAt(lines, n);
    TailOfLines(lines, n);
    LinesOfComposed(p);
    Pieces(lines, n);
  }

  lemma TailOfLines(lines: seq<string>, n: nat)
    requires 0 < n < |lines| && forall i :: 0 <= i < |lines| ==> IsLine(lines[i])
    ensures TailLines(PartsAt(lines, n)) == lines[n..]
  {
    if n < |lines| - 1 {
      SplitJoin(lines[n + 1..], '\n');
      assert lines[n..] == [lines[n]] + lines[n + 1..];
    }
  }

  lemma Pieces(lines: seq<string>, n: nat)
    requires 0 < n < |lines|
    ensures lines == [lines[0]] + (lines[1..n] + lines[n..])
  {
  }

  /** The prompt is what is behind the second fence's line, without the white space around it. */
  lemma PromptIsTrimmed(p: Parts) returns (before: string, after: string)
    requires p.rest.Some?
    ensures var prompt := Meaning(p).1;
            && p.rest.value == before + prompt + after && FolderWords.Blank(before) && FolderWords.Blank(after)
            && (prompt != "" ==> !IsWhitespace(prompt[0]) && !IsWhitespace(prompt[|prompt| - 1]))
  {
    before, after := FolderWords.TrimIsExact(p.rest.value);
  }

  /** Every successful split decomposes the whole input into the fences, the front matter and the rest. */
  lemma SplittingDecomposes(content: string)
    requires SplitResult(content).Some?
    ensures var lines := Lines(content);
            ClosingFence(lines).Some? && 0 < ClosingFence(lines).value < |lines|
    ensures var p := PartsAt(Lines(content), ClosingFence(Lines(content)).value);
            WellFormed(p) && Compose(p) == content && SplitResult(content) == Some(Meaning(p))
  {
    var lines := Lines(content);
    FenceFromIsFirst(lines, 1);
    var n := ClosingFence(lines).value;
    var p := PartsAt(lines, n);
    forall i | 0 <= i < |lines| ensures IsLine(lines[i]) { SplitParts(content, '\n', i); }
    PartsOfLines(lines, n);
    JoinSplit(content, '\n');
    JoinSplit(Compose(p), '\n');
  }

  /** Splitting fails exactly on texts that no well-formed parts compose. */
  lemma SplittingFailsIffNotComposed(content: string)
    ensures SplitResult(content) == None <==> forall p :: WellFormed(p) ==> Compose(p) != content
  {
    if SplitResult(content).Some? {
      SplittingDecomposes(content);
      var p := PartsAt(Lines(content), ClosingFence(Lines(content)).value);
      assert WellFormed(p) && Compose(p) == content;
    } else {
      forall p | WellFormed(p) ensures Compose(p) != content { SplittingInvertsComposing(p); }
    }
  }
}
