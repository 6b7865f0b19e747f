/** Which valid JSON the scanner leaves alone. */
module JsonDocuments {
  import opened Common
  import opened JsonRepair

  /** A JSON value as it is written: strings by what stands between their quotes, white space free. */
  datatype Json =
    | Scalar(token: string)
    | Str(body: string)
    | Arr(space: string, parts: seq<Part>)
    | Obj(space: string, parts: seq<Part>)

  /** An element of an array or a member of an object, with the white space around its pieces. */
  datatype Part =
    | Item(before: string, value: Json, after: string)
    | Entry(before: string, name: string, gap: string, lead: string, value: Json, after: string)

  // What is valid -------------------------------------------------------------------------------

  /** Nothing but escapes of two characters, whatever they stand for, and characters that need none. */
  predicate ValidBody(b: string)
    decreases |b|
  {
    if b == [] then true
    else if b[0] == '\\' then |b| >= 2 && ValidBody(b[2..])
    else b[0] != '"' && ValidBody(b[1..])
  }

  /** A number or a literal. */
  predicate ValidToken(t: string) {
    t != "" && forall i :: 0 <= i < |t| ==> t[i] != '"' && t[i] != ':' && t[i] != '\\' && !IsJsonSpace(t[i])
  }

  predicate Blank(s: string) { forall i :: 0 <= i < |s| ==> IsJsonSpace(s[i]) }

  predicate Valid(v: Json)
    decreases v
  {
    match v
    case Scalar(token) => ValidToken(token)
    case Str(body) => ValidBody(body)
    case Arr(space, parts) => Blank(space) && forall p :: p in parts ==> p.Item? && ValidPart(p)
    case Obj(space, parts) => Blank(space) && forall p :: p in parts ==> p.Entry? && ValidPart(p)
  }

  predicate ValidPart(p: Part)
    decreases p
  {
    Blank(p.before) && Blank(p.after) && Valid(p.value) && (p.Entry? ==> ValidBody(p.name) && Blank(p.gap) && Blank(p.lead))
  }

  // How it is written ---------------------------------------------------------------------------

  datatype Token = Space(text: string) | Mark(c: char) | Plain(text: string) | Quoted(body: string)

  function TokenText(t: Token): string {
    match t
    case Space(text) => text
    case Mark(c) => [c]
    case Plain(text) => text
    case Quoted(body) => "\"" + (body + "\"")
  }

  function Text(ts: seq<Token>): string { if ts == [] then "" else TokenText(ts[0]) + Text(ts[1..]) }

  function Tokens(v: Json): seq<Token>
    decreases v
  {
    match v
    case Scalar(token) => [Plain(token)]
    case Str(body) => [Quoted(body)]
    case Arr(space, parts) => [Mark('['), Space(space)] + (PartsTokens(parts) + [Mark(']')])
    case Obj(space, parts) => [Mark('{'), Space(space)] + (PartsTokens(parts) + [Mark('}')])
  }

  function PartTokens(p: Part): seq<Token>
    decreases p
  {
    match p
    case Item(before, value, after) => [Space(before)] + (Tokens(value) + [Space(after)])
    case Entry(before, name, gap, lead, value, after) =>
      [Space(before), Quoted(name), Space(gap), Mark(':'), Space(lead)] + (Tokens(value) + [Space(after)])
  }

  function PartsTokens(ps: seq<Part>): seq<Token>
    decreases ps
  {
    if ps == [] then []
    else PartTokens(ps[0]) + if |ps| == 1 then [] else [Mark(',')] + PartsTokens(ps[1..])
  }

  /** A whole text: a value with white space around it. */
  datatype Document = Document(before: string, value: Json, after: string)

  predicate ValidDocument(d: Document) { Blank(d.before) && Valid(d.value) && Blank(d.after) }

  function DocumentTokens(d: Document): seq<Token> { [Space(d.before)] + (Tokens(d.value) + [Space(d.after)]) }

  function Print(d: Document): string { Text(DocumentTokens(d)) }

  // The strings in document order -----------------------------------------------------------------

  /** A string, and whether it is the value of an object's member. */
  datatype Literal = Literal(body: string, ofMember: bool)

  function Strings(v: Json, ofMember: bool): seq<Literal>
    decreases v
  {
    match v
    case Scalar(_) => []
    case Str(body) => [Literal(body, ofMember)]
    case Arr(_, parts) => PartsStrings(parts)
    case Obj(_, parts) => PartsStrings(parts)
  }

  function PartStrings(p: Part): seq<Literal>
    decreases p
  {
    match p
    case Item(_, value, _) => Strings(value, false)
    case Entry(_, name, _, _, value, _) => [Literal(name, false)] + Strings(value, true)
  }

  function PartsStrings(ps: seq<Part>): seq<Literal>
    decreases ps
  {
    if ps == [] then [] else PartStrings(ps[0]) + PartsStrings(ps[1..])
  }

  /** The scanner waits for a value behind b if it did before, or if b ends in a colon and then only spaces. */
  predicate Waits(b: string, waiting: bool) {
    if b == [] then waiting else Waits(b[1..], b[0] == ':' || (waiting && IsJsonSpace(b[0])))
  }

  predicate EndsInColon(b: string) { Waits(b, false) }

  lemma {:induction false} WaitsIff(b: string, waiting: bool)
    ensures Waits(b, waiting) <==> (waiting && Blank(b)) || exists i :: 0 <= i < |b| && b[i] == ':' && Blank(b[i + 1..])
  {
    if b != [] {
      var rest := b[1..];
      WaitsIff(rest, b[0] == ':' || (waiting && IsJsonSpace(b[0])));
      assert Blank(b) <==> IsJsonSpace(b[0]) && Blank(rest);
      if i :| 0 <= i < |b| && b[i] == ':' && Blank(b[i + 1..]) {
        if i > 0 { assert rest[i - 1] == ':' && rest[i..] == b[i + 1..]; } else { assert b[1..] == rest; }
      }
      if j :| 0 <= j < |rest| && rest[j] == ':' && Blank(rest[j + 1..]) {
        assert b[j + 1] == ':' && b[j + 2..] == rest[j + 1..];
      }
      if b[0] == ':' && Blank(rest) { assert b[0 + 1..] == rest; }
    }
  }

  /** The bit the scanner carries: it takes the text between two strings for the inside of a value. */
  function Meets(ls: seq<Literal>, astray: bool): Option<bool> {
    if ls == [] then Some(astray)
    else if astray then (if Closing(ls[0].body + "\"") then Meets(ls[1..], EndsInColon(ls[0].body)) else None)
    else Meets(ls[1..], !ls[0].ofMember && EndsInColon(ls[0].body))
  }

  // One character ---------------------------------------------------------------------------------

  /** The scanner leaves s alone. */
  predicate Kept(s: string, st: Scan) { Repair(s, st) == s }

  lemma KeptStep(c: char, t: string, st: Scan)
    ensures Kept([c] + t, st) <==> Emit(c, t, st) == [c] && Kept(t, Shift(c, t, st))
  {
    RepairStep(c, t, st);
    if Emit(c, t, st) == [c] {
      SameHead(c, Repair(t, Shift(c, t, st)), t);
    } else {
      assert ([c] + t)[0] == '"' && (Emit(c, t, st) + Repair(t, Shift(c, t, st)))[0] == '\\';
    }
  }

  lemma {:induction false} BlankKept(s: string, rest: string, st: Scan)
    requires Blank(s) && !st.escapeNext
    ensures Kept(s + rest, st) <==> Kept(rest, st)
  {
    if s == [] {
      assert s + rest == rest;
    } else {
      assert s + rest == [s[0]] + (s[1..] + rest);
      KeptStep(s[0], s[1..] + rest, st);
      BlankKept(s[1..], rest, st);
    }
  }

  /** Text without quotes and backslashes passes while the scanner is astray. */
  lemma {:induction false} AstrayKept(s: string, rest: string)
    requires forall i :: 0 <= i < |s| ==> s[i] != '"' && s[i] != '\\'
    ensures Kept(s + rest, VALUE) <==> Kept(rest, VALUE)
  {
    if s == [] {
      assert s + rest == rest;
    } else {
      assert s + rest == [s[0]] + (s[1..] + rest);
      KeptStep(s[0], s[1..] + rest, VALUE);
      AstrayKept(s[1..], rest);
    }
  }

  lemma {:induction false} TokenEndsWait(s: string, rest: string, waiting: bool)
    requires ValidToken(s)
    ensures Kept(s + rest, Scan(false, false, waiting)) <==> Kept(rest, START)
  {
    assert s + rest == [s[0]] + (s[1..] + rest);
    KeptStep(s[0], s[1..] + rest, Scan(false, false, waiting));
    if |s| > 1 {
      TokenEndsWait(s[1..], rest, false);
    } else {
      assert s[1..] + rest == rest;
    }
  }

  // One string ------------------------------------------------------------------------------------

  /** The body of a value comes through, and its closing quote is taken for that. */
  lemma {:induction false} BodyKept(body: string, after: string)
    requires ValidBody(body) && Closing(after)
    ensures Kept(Closed(body, after), VALUE) <==> Kept(after, START)
    decreases |body|
  {
    if body == [] {
      assert Closed(body, after) == ['"'] + after;
      KeptStep('"', after, VALUE);
    } else {
      var next := Closed(body[1..], after);
      assert Closed(body, after) == [body[0]] + next;
      KeptStep(body[0], next, VALUE);
      if body[0] == '\\' {
        assert next == [body[1]] + Closed(body[2..], after);
        KeptStep(body[1], Closed(body[2..], after), VALUE.(escapeNext := true));
        BodyKept(body[2..], after);
      } else {
        BodyKept(body[1..], after);
      }
    }
  }

  /** Outside a value a character other than a quote passes. */
  lemma CharOutside(c: char, rest: string, waiting: bool)
    requires c != '"'
    ensures Kept([c] + rest, Scan(false, false, waiting)) <==> Kept(rest, Scan(false, false, c == ':' || (waiting && IsJsonSpace(c))))
  {
    KeptStep(c, rest, Scan(false, false, waiting));
  }

  lemma WaitsBehindEscape(body: string, waiting: bool)
    requires |body| >= 2 && body[0] == '\\'
    ensures Waits(body, waiting) == Waits(body[2..], body[1] == ':')
  {
    assert body[1..][1..] == body[2..];
    assert Waits(body, waiting) == Waits(body[1..], false);
  }

  /** Outside a value a body passes, and leaves the scanner waiting or not. */
  lemma {:induction false} BodyOutside(body: string, rest: string, waiting: bool)
    requires ValidBody(body)
    ensures Kept(body + rest, Scan(false, false, waiting)) <==> Kept(rest, Scan(false, false, Waits(body, waiting)))
    decreases |body|
  {
    if body == [] {
      assert body + rest == rest;
    } else {
      var next := body[1..] + rest;
      assert body + rest == [body[0]] + next;
      CharOutside(body[0], next, waiting);
      if body[0] == '\\' {
        assert next == [body[1]] + (body[2..] + rest);
        KeptStep(body[1], body[2..] + rest, START);
        WaitsBehindEscape(body, waiting);
        BodyOutside(body[2..], rest, body[1] == ':');
      } else {
        BodyOutside(body[1..], rest, body[0] == ':' || (waiting && IsJsonSpace(body[0])));
      }
    }
  }

  lemma ClosedIs(body: string, rest: string)
    ensures Closed(body, rest) == body + ("\"" + rest)
    ensures ("\"" + (body + "\"")) + rest == ['"'] + Closed(body, rest)
  {
  }

  /** A body that is scanned from outside, with its closing quote. */
  lemma QuotedOutside(body: string, rest: string)
    requires ValidBody(body)
    ensures Kept(Closed(body, rest), START) <==> Kept(rest, if EndsInColon(body) then VALUE else START)
  {
    ClosedIs(body, rest);
    BodyOutside(body, "\"" + rest, false);
    KeptStep('"', rest, Scan(false, false, EndsInColon(body)));
  }

  // One token -------------------------------------------------------------------------------------

  /** Where the scanner is between two tokens: at rest, waiting for a value, or astray. */
  datatype Mode = Idle | Awaiting | Astray

  function StateOf(m: Mode): Scan {
    match m case Idle => START case Awaiting => Scan(false, false, true) case Astray => VALUE
  }

  /** What a token does to the mode; none when it is damaged. */
  function Step(t: Token, m: Mode): Option<Mode> {
    match t
    case Space(_) => Some(m)
    case Mark(c) => Some(if m.Astray? then m else if c == ':' then Awaiting else Idle)
    case Plain(_) => Some(if m.Astray? then m else Idle)
    case Quoted(body) =>
      if m.Awaiting? then Some(Idle)
      else if m.Astray? && !Closing(body + "\"") then None
      else Some(if EndsInColon(body) then Astray else Idle)
  }

  predicate SoundToken(t: Token) {
    match t
    case Space(text) => Blank(text)
    case Mark(c) => c == ',' || c == ':' || c == '[' || c == ']' || c == '{' || c == '}'
    case Plain(text) => ValidToken(text)
    case Quoted(body) => ValidBody(body)
  }

  /** A string meets the scanner: where it is, and what follows. */
  lemma QuotedKept(body: string, rest: string, m: Mode)
    requires ValidBody(body) && Closing(rest)
    ensures Kept(TokenText(Quoted(body)) + rest, StateOf(m))
       <==> match Step(Quoted(body), m) case None => false case Some(m') => Kept(rest, StateOf(m'))
  {
    ClosedIs(body, rest);
    KeptStep('"', Closed(body, rest), StateOf(m));
    if m.Awaiting? {
      BodyKept(body, rest);
    } else {
      QuotedOutside(body, rest);
      ClosingInContext(body, rest);
      ClosingInContext(body, "");
      assert Closed(body, "") == body + "\"";
    }
  }

  lemma TokenKept(t: Token, rest: string, m: Mode)
    requires SoundToken(t) && (t.Quoted? ==> Closing(rest))
    ensures Kept(TokenText(t) + rest, StateOf(m))
       <==> match Step(t, m) case None => false case Some(m') => Kept(rest, StateOf(m'))
  {
    match t
    case Space(text) => BlankKept(text, rest, StateOf(m));
    case Mark(c) => KeptStep(c, rest, StateOf(m));
    case Plain(text) =>
      if m.Astray? { AstrayKept(text, rest); } else { TokenEndsWait(text, rest, m.Awaiting?); }
    case Quoted(body) => QuotedKept(body, rest, m);
  }

  // A sequence of tokens ----------------------------------------------------------------------------

  function Run(ts: seq<Token>, m: Mode): Option<Mode> {
    if ts == [] then Some(m)
    else match Step(ts[0], m) case None => None case Some(m') => Run(ts[1..], m')
  }

  /** White space, and then something that can follow a string, or the end. */
  predicate EndsValue(ts: seq<Token>) {
    ts == []
    || (ts[0].Space? && Blank(ts[0].text) && EndsValue(ts[1..]))
    || (ts[0].Mark? && (ts[0].c == ',' || ts[0].c == ':' || ts[0].c == ']' || ts[0].c == '}'))
  }

  /** Tokens a valid text can consist of. */
  predicate Sound(ts: seq<Token>) {
    ts == [] || (SoundToken(ts[0]) && (ts[0].Quoted? ==> EndsValue(ts[1..])) && Sound(ts[1..]))
  }

  lemma {:induction false} BlankThenClosing(s: string, rest: string)
    requires Blank(s)
    ensures Closing(s + rest) == Closing(rest)
  {
    if s == [] {
      assert s + rest == rest;
    } else {
      assert (s + rest)[1..] == s[1..] + rest && IsWhitespace((s + rest)[0]);
      BlankThenClosing(s[1..], rest);
    }
  }

  lemma {:induction false} EndsValueCloses(ts: seq<Token>)
    requires EndsValue(ts)
    ensures Closing(Text(ts))
  {
    if ts != [] {
      if ts[0].Space? {
        EndsValueCloses(ts[1..]);
        BlankThenClosing(ts[0].text, Text(ts[1..]));
      } else {
        assert Text(ts)[0] == ts[0].c;
      }
    }
  }

  /** The scanner leaves the text alone exactly when no token is damaged. */
  lemma {:induction false} TokensKept(ts: seq<Token>, m: Mode)
    requires Sound(ts)
    ensures Kept(Text(ts), StateOf(m)) <==> Run(ts, m).Some?
  {
    if ts != [] {
      if ts[0].Quoted? { EndsValueCloses(ts[1..]); }
      TokenKept(ts[0], Text(ts[1..]), m);
      match Step(ts[0], m)
      case Some(m') => TokensKept(ts[1..], m');
      case None =>
    }
  }

  lemma {:induction false} RunConcat(a: seq<Token>, b: seq<Token>, m: Mode)
    ensures Run(a + b, m) == match Run(a, m) case None => None case Some(m') => Run(b, m')
  {
    if a == [] {
      assert a + b == b;
    } else {
      assert (a + b)[1..] == a[1..] + b;
      if Step(a[0], m).Some? { RunConcat(a[1..], b, Step(a[0], m).value); }
    }
  }

  lemma {:induction false} MeetsConcat(a: seq<Literal>, b: seq<Literal>, astray: bool)
    ensures Meets(a + b, astray) == match Meets(a, astray) case None => None case Some(x) => Meets(b, x)
  {
    if a == [] {
      assert a + b == b;
    } else {
      assert (a + b)[1..] == a[1..] + b;
      if astray {
        MeetsConcat(a[1..], b, EndsInColon(a[0].body));
      } else {
        MeetsConcat(a[1..], b, !a[0].ofMember && EndsInColon(a[0].body));
      }
    }
  }

  // A document's tokens are sound -------------------------------------------------------------------

  lemma SoundCons(t: Token, rest: seq<Token>)
    requires SoundToken(t) && Sound(rest) && (t.Quoted? ==> EndsValue(rest))
    ensures Sound([t] + rest)
    ensures t.Space? && EndsValue(rest) ==> EndsValue([t] + rest)
    ensures t.Mark? && (t.c == ',' || t.c == ':' || t.c == ']' || t.c == '}') ==> EndsValue([t] + rest)
  {
    assert ([t] + rest)[1..] == rest;
  }

  lemma {:induction false} ValueSound(v: Json, rest: seq<Token>)
    requires Valid(v) && Sound(rest) && EndsValue(rest)
    ensures Sound(Tokens(v) + rest)
    decreases v, 0
  {
    match v
    case Scalar(token) => SoundCons(Plain(token), rest);
    case Str(body) => SoundCons(Quoted(body), rest);
    case Arr(space, parts) => GroupSound('[', space, parts, ']', rest);
    case Obj(space, parts) => GroupSound('{', space, parts, '}', rest);
  }

  lemma {:induction false} GroupSound(opening: char, space: string, parts: seq<Part>, closing: char, rest: seq<Token>)
    requires (opening == '[' || opening == '{') && (closing == ']' || closing == '}') && Blank(space)
    requires (forall p :: p in parts ==> ValidPart(p)) && Sound(rest)
    ensures Sound([Mark(opening), Space(space)] + (PartsTokens(parts) + [Mark(closing)]) + rest)
    decreases parts, 1
  {
    var end := [Mark(closing)] + rest;
    SoundCons(Mark(closing), rest);
    PartsSound(parts, end);
    SoundCons(Space(space), PartsTokens(parts) + end);
    SoundCons(Mark(opening), [Space(space)] + (PartsTokens(parts) + end));
    assert [Mark(opening), Space(space)] + (PartsTokens(parts) + [Mark(closing)]) + rest
        == [Mark(opening)] + ([Space(space)] + (PartsTokens(parts) + end));
  }

  lemma {:induction false} PartsSound(ps: seq<Part>, rest: seq<Token>)
    requires (forall p :: p in ps ==> ValidPart(p)) && Sound(rest) && EndsValue(rest)
    ensures Sound(PartsTokens(ps) + rest)
    decreases ps, 0
  {
    if ps == [] {
      assert PartsTokens(ps) + rest == rest;
    } else if |ps| == 1 {
      PartSound(ps[0], rest);
      assert PartsTokens(ps) == PartTokens(ps[0]);
    } else {
      PartsSound(ps[1..], rest);
      var more := [Mark(',')] + (PartsTokens(ps[1..]) + rest);
      SoundCons(Mark(','), PartsTokens(ps[1..]) + rest);
      PartSound(ps[0], more);
      assert PartsTokens(ps) + rest == PartTokens(ps[0]) + more;
    }
  }

  lemma {:induction false} PartSound(p: Part, rest: seq<Token>)
    requires ValidPart(p) && Sound(rest) && EndsValue(rest)
    ensures Sound(PartTokens(p) + rest)
    decreases p, 0
  {
    var end := [Space(p.after)] + rest;
    SoundCons(Space(p.after), rest);
    ValueSound(p.value, end);
    var value := Tokens(p.value) + end;
    match p
    case Item(before, v, after) =>
      SoundCons(Space(before), value);
      assert PartTokens(p) + rest == [Space(before)] + value;
    case Entry(before, name, gap, lead, v, after) =>
      EntrySound(p, value);
      assert PartTokens(p) + rest
          == [Space(before), Quoted(name), Space(gap), Mark(':'), Space(lead)] + value;
  }

  lemma EntrySound(p: Part, value: seq<Token>)
    requires p.Entry? && ValidPart(p) && Sound(value)
    ensures Sound([Space(p.before), Quoted(p.name), Space(p.gap), Mark(':'), Space(p.lead)] + value)
  {
    var afterColon := [Space(p.lead)] + value;
    var afterGap := [Mark(':')] + afterColon;
    var afterName := [Space(p.gap)] + afterGap;
    var all := [Quoted(p.name)] + afterName;
    SoundCons(Space(p.lead), value);
    SoundCons(Mark(':'), afterColon);
    SoundCons(Space(p.gap), afterGap);
    SoundCons(Quoted(p.name), afterName);
    SoundCons(Space(p.before), all);
    assert [Space(p.before), Quoted(p.name), Space(p.gap), Mark(':'), Space(p.lead)] + value == [Space(p.before)] + all;
  }

  // The scanner's bit is the walk's bit -----------------------------------------------------------------

  function ModeOf(astray: bool, ofMember: bool): Mode { if astray then Astray else if ofMember then Awaiting else Idle }

  function Lift(r: Option<bool>): Option<Mode> {
    match r case None => None case Some(astray) => Some(ModeOf(astray, false))
  }

  lemma RunOne(t: Token, rest: seq<Token>, m: Mode)
    ensures Run([t] + rest, m) == match Step(t, m) case None => None case Some(m') => Run(rest, m')
  {
    assert ([t] + rest)[1..] == rest;
  }

  lemma {:induction false} ValueWalk(v: Json, ofMember: bool, astray: bool)
    ensures Run(Tokens(v), ModeOf(astray, ofMember)) == Lift(Meets(Strings(v, ofMember), astray))
    decreases v, 0
  {
    var m := ModeOf(astray, ofMember);
    match v
    case Scalar(token) => RunOne(Plain(token), [], m);
    case Str(body) => StringWalk(body, ofMember, astray);
    case Arr(space, parts) => GroupWalk('[', space, parts, ']', ofMember, astray);
    case Obj(space, parts) => GroupWalk('{', space, parts, '}', ofMember, astray);
  }

  lemma StringWalk(body: string, ofMember: bool, astray: bool)
    ensures Run([Quoted(body)], ModeOf(astray, ofMember)) == Lift(Meets([Literal(body, ofMember)], astray))
  {
    RunOne(Quoted(body), [], ModeOf(astray, ofMember));
    assert [Literal(body, ofMember)][1..] == [];
  }

  lemma {:induction false} GroupWalk(opening: char, space: string, parts: seq<Part>, closing: char, ofMember: bool, astray: bool)
    requires opening != ':' && closing != ':'
    ensures Run([Mark(opening), Space(space)] + (PartsTokens(parts) + [Mark(closing)]), ModeOf(astray, ofMember))
         == Lift(Meets(PartsStrings(parts), astray))
    decreases parts, 1
  {
    GroupOpens(opening, space, PartsTokens(parts) + [Mark(closing)], ofMember, astray);
    PartsWalk(parts, astray);
    RunConcat(PartsTokens(parts), [Mark(closing)], ModeOf(astray, false));
    RunOne(Mark(closing), [], Idle);
    RunOne(Mark(closing), [], Astray);
  }

  lemma GroupOpens(opening: char, space: string, inner: seq<Token>, ofMember: bool, astray: bool)
    requires opening != ':'
    ensures Run([Mark(opening), Space(space)] + inner, ModeOf(astray, ofMember)) == Run(inner, ModeOf(astray, false))
  {
    RunOne(Mark(opening), [Space(space)] + inner, ModeOf(astray, ofMember));
    RunOne(Space(space), inner, ModeOf(astray, false));
    assert [Mark(opening), Space(space)] + inner == [Mark(opening)] + ([Space(space)] + inner);
  }

  lemma {:induction false} PartsWalk(ps: seq<Part>, astray: bool)
    ensures Run(PartsTokens(ps), ModeOf(astray, false)) == Lift(Meets(PartsStrings(ps), astray))
    decreases ps, 0
  {
    if ps != [] {
      var m := ModeOf(astray, false);
      PartWalk(ps[0], astray);
      MeetsConcat(PartStrings(ps[0]), PartsStrings(ps[1..]), astray);
      if |ps| == 1 {
        assert PartsTokens(ps) == PartTokens(ps[0]) && ps[1..] == [];
      } else {
        var tail := PartsTokens(ps[1..]);
        RunConcat(PartTokens(ps[0]), [Mark(',')] + tail, m);
        RunOne(Mark(','), tail, Idle);
        RunOne(Mark(','), tail, Astray);
        PartsWalk(ps[1..], false);
        PartsWalk(ps[1..], true);
      }
    }
  }

  lemma {:induction false} PartWalk(p: Part, astray: bool)
    ensures Run(PartTokens(p), ModeOf(astray, false)) == Lift(Meets(PartStrings(p), astray))
    decreases p, 0
  {
    var value := Tokens(p.value) + [Space(p.after)];
    match p
    case Item(before, v, after) =>
      RunOne(Space(before), value, ModeOf(astray, false));
      ValueThenSpace(p, false, astray);
    case Entry(before, name, gap, lead, v, after) =>
      EntryHead(p, value, astray);
      MeetsConcat([Literal(name, false)], Strings(v, true), astray);
      StringWalk(name, false, astray);
      ValueThenSpace(p, true, false);
      ValueThenSpace(p, true, true);
  }

  lemma {:induction false} ValueThenSpace(p: Part, ofMember: bool, astray: bool)
    ensures Run(Tokens(p.value) + [Space(p.after)], ModeOf(astray, ofMember)) == Lift(Meets(Strings(p.value, ofMember), astray))
    decreases p.value, 1
  {
    ValueWalk(p.value, ofMember, astray);
    RunConcat(Tokens(p.value), [Space(p.after)], ModeOf(astray, ofMember));
    RunOne(Space(p.after), [], Idle);
    RunOne(Space(p.after), [], Astray);
  }

  /** The name, and then the colon behind which a value is awaited unless the scanner is astray. */
  lemma EntryHead(p: Part, value: seq<Token>, astray: bool)
    requires p.Entry?
    ensures Run([Space(p.before), Quoted(p.name), Space(p.gap), Mark(':'), Space(p.lead)] + value, ModeOf(astray, false))
         == match Run([Quoted(p.name)], ModeOf(astray, false))
            case None => None
            case Some(m) => Run(value, if m.Astray? then Astray else Awaiting)
  {
    var m0 := ModeOf(astray, false);
    var afterColon := [Space(p.lead)] + value;
    var afterName := [Space(p.gap)] + ([Mark(':')] + afterColon);
    assert [Space(p.before), Quoted(p.name), Space(p.gap), Mark(':'), Space(p.lead)] + value
        == [Space(p.before)] + ([Quoted(p.name)] + afterName);
    RunOne(Space(p.before), [Quoted(p.name)] + afterName, m0);
    RunOne(Quoted(p.name), afterName, m0);
    RunOne(Quoted(p.name), [], m0);
    if Step(Quoted(p.name), m0).Some? {
      var m := Step(Quoted(p.name), m0).value;
      RunOne(Space(p.gap), [Mark(':')] + afterColon, m);
      RunOne(Mark(':'), afterColon, m);
      RunOne(Space(p.lead), value, if m.Astray? then Astray else Awaiting);
    }
  }

  // Whole documents -------------------------------------------------------------------------------------

  lemma DocumentSound(d: Document)
    requires ValidDocument(d)
    ensures Sound(DocumentTokens(d))
  {
    var end := [Space(d.after)];
    assert end == [Space(d.after)] + [];
    SoundCons(Space(d.after), []);
    ValueSound(d.value, end);
    SoundCons(Space(d.before), Tokens(d.value) + end);
  }

  /**
   * Valid JSON is left alone exactly when the walk over its strings meets no damage: when no string that
   * opens while the scanner is astray begins with a character that cannot follow a value.
   */
  lemma ValidJsonKeptIff(d: Document)
    requires ValidDocument(d)
    ensures Repair(Print(d), START) == Print(d) <==> Meets(Strings(d.value, false), false).Some?
  {
    var value := Tokens(d.value) + [Space(d.after)];
    DocumentSound(d);
    TokensKept(DocumentTokens(d), Idle);
    RunOne(Space(d.before), value, Idle);
    ValueThenSpace(Item(d.before, d.value, d.after), false, false);
  }

  /** No string but a member's value ends in a colon. */
  predicate OnlyValuesEndInColon(ls: seq<Literal>) {
    forall i :: 0 <= i < |ls| && !ls[i].ofMember ==> !EndsInColon(ls[i].body)
  }

  lemma {:induction false} NeverAstray(ls: seq<Literal>)
    requires OnlyValuesEndInColon(ls)
    ensures Meets(ls, false) == Some(false)
  {
    if ls != [] {
      var rest := ls[1..];
      assert forall i :: 0 <= i < |rest| ==> rest[i] == ls[i + 1];
      NeverAstray(rest);
    }
  }

  /** Valid JSON in which no name and no array string ends in a colon is left alone. */
  lemma JsonWithoutTrailingColonsIsKept(d: Document)
    requires ValidDocument(d) && OnlyValuesEndInColon(Strings(d.value, false))
    ensures Repair(Print(d), START) == Print(d)
  {
    NeverAstray(Strings(d.value, false));
    ValidJsonKeptIff(d);
  }

  /** Text escaped as section 7 of RFC 8259 asks is a valid body. */
  lemma {:induction false} EscapedIsValid(text: string)
    ensures ValidBody(Escape(text))
  {
    if text != [] {
      var e, rest := EscapeChar(text[0]), Escape(text[1..]);
      EscapedIsValid(text[1..]);
      if |e| == 2 {
        assert (e + rest)[2..] == rest;
      } else if IsControl(text[0]) {
        var s := e + rest;
        assert s[2..] == ['0'] + (['0'] + ([e[4]] + ([e[5]] + rest)));
        HexIsPlain(text[0] as int / 16);
        HexIsPlain(text[0] as int % 16);
        PlainThenValid(e[5], rest);
        PlainThenValid(e[4], [e[5]] + rest);
        PlainThenValid('0', [e[4]] + ([e[5]] + rest));
        PlainThenValid('0', ['0'] + ([e[4]] + ([e[5]] + rest)));
      } else {
        PlainThenValid(text[0], rest);
      }
    }
  }

  lemma PlainThenValid(c: char, rest: string)
    requires c != '"' && c != '\\' && ValidBody(rest)
    ensures ValidBody([c] + rest)
  {
    assert ([c] + rest)[1..] == rest;
  }

  lemma HexIsPlain(n: nat)
    requires n < 16
    ensures HexDigit(n) != '"' && HexDigit(n) != '\\'
  {
  }
}
