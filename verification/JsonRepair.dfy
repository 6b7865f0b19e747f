/** The scanner that escapes stray quotes inside JSON string values. */
module JsonRepair {
  import opened Common

  /** The scanner's three flags. */
  datatype Scan = Scan(inValue: bool, escapeNext: bool, afterColon: bool)

  const START := Scan(false, false, false)
  const VALUE := Scan(true, false, false)

  function NextVisible(s: string): Option<char> {
    if s == [] then None else if IsWhitespace(s[0]) then NextVisible(s[1..]) else Some(s[0])
  }

  /** A quote before rest is taken for the closing one. */
  predicate Closing(rest: string) {
    match NextVisible(rest)
    case Some(c) => c == ',' || c == '}' || c == ']' || c == ':' || c == '"'
    case None => true
  }

  /** What one character is written as. */
  function Emit(c: char, rest: string, st: Scan): string {
    if !st.escapeNext && c == '"' && st.inValue && !Closing(rest) then ['\\', '"'] else [c]
  }

  function Shift(c: char, rest: string, st: Scan): Scan {
    if st.escapeNext then st.(escapeNext := false)
    else if c == '\\' && st.inValue then st.(escapeNext := true)
    else if c == '"' then
      if st.inValue then st.(inValue := !Closing(rest))
      else if st.afterColon then Scan(true, false, false)
      else st
    else if c == ':' && !st.inValue then st.(afterColon := true)
    else if c != ' ' && c != '\t' && c != '\n' && c != '\r' then st.(afterColon := false)
    else st
  }

  /** The text written for s by a scanner in state st. */
  function Repair(s: string, st: Scan): string {
    if s == [] then [] else Emit(s[0], s[1..], st) + Repair(s[1..], Shift(s[0], s[1..], st))
  }

  method RepairJsonStringValues(s: string) returns (out: string)
    ensures out == Repair(s, START)
  {
    out := [];
    var inValue, escapeNext, afterColon := false, false, false;
    var i := 0;
    while i < |s|
      invariant 0 <= i <= |s|
      invariant out + Repair(s[i..], Scan(inValue, escapeNext, afterColon)) == Repair(s, START)
    {
      var c := s[i];
      ghost var rest, st := s[i + 1..], Scan(inValue, escapeNext, afterColon);
      ghost var e := Emit(c, rest, st);
      ghost var st' := Shift(c, rest, st);
      assert s[i..] == [c] + rest;
      RepairStep(c, rest, st);
      assert (out + e) + Repair(rest, st') == out + (e + Repair(rest, st'));
      ghost var before := out;
      i := i + 1;
      if escapeNext {
        out := out + [c];
        escapeNext := false;
      } else if c == '\\' && inValue {
        out := out + [c];
        escapeNext := true;
      } else if c == '"' {
        if inValue {
          if Closing(s[i..]) {
            inValue := false;
            out := out + [c];
          } else {
            out := out + ['\\', c];
          }
        } else {
          out := out + [c];
          if afterColon {
            inValue := true;
            afterColon := false;
          }
        }
      } else if c == ':' && !inValue {
        afterColon := true;
        out := out + [c];
      } else {
        if c != ' ' && c != '\t' && c != '\n' && c != '\r' {
          afterColon := false;
        }
        out := out + [c];
      }
      assert out == before + e && Scan(inValue, escapeNext, afterColon) == st';
    }
  }

  // Only backslashes before quotes are added --------------------------------------------------

  /** t is s with a backslash inserted directly before some of its quotes. */
  ghost predicate Inserts(s: string, t: string)
    decreases |s|
  {
    if s == [] then t == []
    else
      || (t != [] && t[0] == s[0] && Inserts(s[1..], t[1..]))
      || (s[0] == '"' && |t| >= 2 && t[..2] == ['\\', '"'] && Inserts(s[1..], t[2..]))
  }

  lemma {:induction false} RepairOnlyInserts(s: string, st: Scan)
    ensures Inserts(s, Repair(s, st))
  {
    if s != [] {
      var e, rest := Emit(s[0], s[1..], st), Repair(s[1..], Shift(s[0], s[1..], st));
      RepairOnlyInserts(s[1..], Shift(s[0], s[1..], st));
      assert (e + rest)[|e|..] == rest && (e + rest)[..|e|] == e;
    }
  }

  // Repairing twice is repairing once ---------------------------------------------------------

  /** States the scanner can be in. */
  predicate Sane(st: Scan) { (st.escapeNext ==> st.inValue) && (st.inValue ==> !st.afterColon) }

  /** Outside a value the lookahead sees the same character before and after rewriting. */
  lemma {:induction false} VisibleKept(s: string, st: Scan)
    requires !st.inValue && !st.escapeNext
    ensures NextVisible(Repair(s, st)) == NextVisible(s)
  {
    if s != [] && IsWhitespace(s[0]) {
      VisibleKept(s[1..], Shift(s[0], s[1..], st));
      assert Repair(s, st)[1..] == Repair(s[1..], Shift(s[0], s[1..], st));
    }
  }

  lemma RepairStep(c: char, t: string, st: Scan)
    ensures Repair([c] + t, st) == Emit(c, t, st) + Repair(t, Shift(c, t, st))
  {
    assert ([c] + t)[1..] == t;
  }

  lemma {:induction false} RepairIdempotentFrom(s: string, st: Scan)
    requires Sane(st)
    ensures Repair(Repair(s, st), st) == Repair(s, st)
  {
    if s != [] {
      var c, rest := s[0], s[1..];
      var st' := Shift(c, rest, st);
      var t := Repair(rest, st');
      RepairIdempotentFrom(rest, st');
      if Emit(c, rest, st) == [c] {
        if c == '"' && st.inValue && !st.escapeNext {
          VisibleKept(rest, st');
        }
        RepairStep(c, t, st);
      } else {
        InsertedStays(t, st);
      }
    }
  }

  /** An inserted backslash protects its quote from the next repair. */
  lemma InsertedStays(t: string, st: Scan)
    requires st.inValue && !st.escapeNext
    ensures Repair(['\\', '"'] + t, st) == ['\\', '"'] + Repair(t, st)
  {
    RepairStep('"', t, st.(escapeNext := true));
    RepairStep('\\', ['"'] + t, st);
    assert ['\\'] + (['"'] + t) == ['\\', '"'] + t;
    Regroup(['\\'], ['"'], Repair(t, st));
  }

  /** Repairing any text twice is repairing it once. */
  lemma RepairIdempotent(s: string)
    ensures Repair(Repair(s, START), START) == Repair(s, START)
  {
    RepairIdempotentFrom(s, START);
  }

  // Flat objects ------------------------------------------------------------------------------

  /** A string with raw text, or a token without quote and colon, such as a number or a literal. */
  datatype Value = Str(text: string) | Raw(token: string)

  /** A member as it is laid out: text up to the colon, white space, the value, white space. */
  datatype Member = Member(name: string, gap: string, value: Value, tail: string)

  predicate Has(s: string, c: char) { c in s }

  /** Section 2 of RFC 8259. */
  predicate IsJsonSpace(c: char) { c == ' ' || c == '\t' || c == '\n' || c == '\r' }

  predicate AllJsonSpace(s: string) { forall c :: c in s ==> IsJsonSpace(c) }

  /** The name part holds no colon, the gaps are JSON white space, tokens are as Value says. Texts are free. */
  predicate WellLaidOut(m: Member) {
    && !Has(m.name, ':')
    && AllJsonSpace(m.gap) && AllJsonSpace(m.tail)
    && (m.value.Raw? ==> !Has(m.value.token, '"') && !Has(m.value.token, ':'))
  }

  predicate IsControl(c: char) { (c as int) < 0x20 }

  function HexDigit(n: nat): char
    requires n < 16
  {
    "0123456789abcdef"[n]
  }

  /** Section 7 of RFC 8259: quotes, backslashes and control characters are escaped. */
  function EscapeChar(c: char): string {
    if c == '"' then ['\\', '"']
    else if c == '\\' then ['\\', '\\']
    else if IsControl(c) then ['\\', 'u', '0', '0', HexDigit(c as int / 16), HexDigit(c as int % 16)]
    else [c]
  }

  function Escape(text: string): string {
    if text == [] then [] else EscapeChar(text[0]) + Escape(text[1..])
  }

  function PrintValue(v: Value, escaped: bool): string {
    match v
    case Str(text) => "\"" + (if escaped then Escape(text) else text) + "\""
    case Raw(token) => token
  }

  /** The members separated by commas and closed by a brace. */
  function PrintMembers(ms: seq<Member>, escaped: bool): string {
    if ms == [] then "}"
    else
      ms[0].name + (":" + (ms[0].gap + (PrintValue(ms[0].value, escaped) + (ms[0].tail +
        (if |ms| == 1 then "}" else "," + PrintMembers(ms[1..], escaped))))))
  }

  function PrintObject(ms: seq<Member>, escaped: bool): string { "{" + PrintMembers(ms, escaped) }

  /**
   * The text holds no backslash and no control character, and every quote in it is followed, after
   * white space, by a character that cannot stand behind a value.
   */
  predicate Repairable(text: string) {
    || text == []
    || (&& text[0] != '\\' && !IsControl(text[0])
        && (text[0] == '"' ==> !Closing(text[1..]))
        && Repairable(text[1..]))
  }

  // Outside values ----------------------------------------------------------------------------

  /** Away from a colon, nothing but a colon changes the scanner's state. */
  lemma {:induction false} SkipIdle(g: string, rest: string)
    requires !Has(g, ':')
    ensures Repair(g + rest, START) == g + Repair(rest, START)
  {
    if g == [] {
      assert g + rest == rest;
    } else {
      assert g + rest == [g[0]] + (g[1..] + rest);
      RepairStep(g[0], g[1..] + rest, START);
      SkipIdle(g[1..], rest);
    }
  }

  /** After a colon, white space keeps the scanner waiting for a value. */
  lemma {:induction false} SkipGap(g: string, rest: string)
    requires AllJsonSpace(g)
    ensures Repair(g + rest, Scan(false, false, true)) == g + Repair(rest, Scan(false, false, true))
  {
    if g == [] {
      assert g + rest == rest;
    } else {
      var c, more := g[0], g[1..] + rest;
      assert c in g && IsJsonSpace(c);
      SpaceKeepsWaiting(c, more);
      assert g + rest == [c] + more;
      SkipGap(g[1..], rest);
      Regroup([c], g[1..], Repair(rest, Scan(false, false, true)));
      assert [c] + g[1..] == g;
    }
  }

  lemma SpaceKeepsWaiting(c: char, more: string)
    requires IsJsonSpace(c)
    ensures Repair([c] + more, Scan(false, false, true)) == [c] + Repair(more, Scan(false, false, true))
  {
    RepairStep(c, more, Scan(false, false, true));
  }

  lemma OtherEndsWait(c: char, more: string)
    requires !IsJsonSpace(c) && c != '"' && c != ':'
    ensures Repair([c] + more, Scan(false, false, true)) == [c] + Repair(more, START)
  {
    RepairStep(c, more, Scan(false, false, true));
  }

  /** A token ends the wait; its terminator does so at the latest. */
  lemma {:induction false} SkipToken(token: string, rest: string)
    requires !Has(token, '"') && !Has(token, ':')
    requires rest != [] && (rest[0] == ',' || rest[0] == '}')
    ensures Repair(token + rest, Scan(false, false, true)) == token + Repair(rest, START)
  {
    if token == [] {
      assert token + rest == rest && rest == [rest[0]] + rest[1..];
      OtherEndsWait(rest[0], rest[1..]);
      SkipIdle([rest[0]], rest[1..]);
    } else {
      var c, more := token[0], token[1..] + rest;
      assert c in token && forall x :: x in token[1..] ==> x in token;
      assert token + rest == [c] + more && [c] + token[1..] == token;
      Regroup([c], token[1..], Repair(rest, START));
      if IsJsonSpace(c) {
        SpaceKeepsWaiting(c, more);
        SkipToken(token[1..], rest);
      } else {
        OtherEndsWait(c, more);
        SkipIdle(token[1..], rest);
      }
    }
  }

  // Inside a value ----------------------------------------------------------------------------

  /** The text with its closing quote and all that follows. */
  function Closed(text: string, after: string): string { text + (['"'] + after) }

  /** The lookahead past the end of the text meets the closing quote. */
  lemma {:induction false} ClosingInContext(text: string, after: string)
    ensures Closing(Closed(text, after)) == Closing(text)
  {
    if text == [] {
      assert Closed(text, after) == "\"" + after;
    } else {
      assert Closed(text, after)[1..] == Closed(text[1..], after);
      ClosingInContext(text[1..], after);
    }
  }

  lemma ClosedStep(text: string, after: string)
    requires text != []
    ensures Closed(text, after) == [text[0]] + Closed(text[1..], after)
    ensures Repair(Closed(text, after), VALUE)
         == Emit(text[0], Closed(text[1..], after), VALUE)
          + Repair(Closed(text[1..], after), Shift(text[0], Closed(text[1..], after), VALUE))
  {
    assert Closed(text, after) == [text[0]] + Closed(text[1..], after);
    RepairStep(text[0], Closed(text[1..], after), VALUE);
  }

  lemma EscapeStep(text: string, expected: string)
    requires text != []
    ensures Closed(Escape(text), expected) == EscapeChar(text[0]) + Closed(Escape(text[1..]), expected)
  {
    var e, rest := EscapeChar(text[0]), Escape(text[1..]);
    assert Escape(text) == e + rest;
    Regroup(e, rest, ['"'] + expected);
  }

  lemma Regroup(a: string, b: string, c: string)
    ensures (a + b) + c == a + (b + c)
  {
  }

  /** Behind a backslash the next character is copied and the scanner is as before. */
  lemma CopiesPair(text: string, after: string)
    requires text != [] && text[0] == '\\'
    ensures var next := Closed(text[1..], after);
            Repair(Closed(text, after), VALUE) == ['\\', next[0]] + Repair(next[1..], VALUE)
  {
    var next := Closed(text[1..], after);
    ClosedStep(text, after);
    assert next == [next[0]] + next[1..];
    RepairStep(next[0], next[1..], VALUE.(escapeNext := true));
  }

  function Lead(s: string): nat { if s != [] && s[0] == '\\' then 1 + Lead(s[1..]) else 0 }

  lemma {:induction false} LeadOfRepair(text: string, after: string)
    requires Closing(after)
    ensures Lead(Repair(Closed(text, after), VALUE)) <= Lead(text) + 1 - Lead(text) % 2
  {
    if text == [] {
      assert Closed(text, after) == ['"'] + after;
      RepairStep('"', after, VALUE);
    } else if text[0] == '\\' {
      CopiesPair(text, after);
      var next := Closed(text[1..], after);
      var more := Repair(next[1..], VALUE);
      LeadStep('\\', [next[0]] + more);
      LeadStep(next[0], more);
      assert ['\\', next[0]] + more == ['\\'] + ([next[0]] + more);
      if next[0] == '\\' {
        assert |text| > 1 && next[0] == text[1] && text[1..][1..] == text[2..];
        assert next[1..] == Closed(text[2..], after);
        LeadOfRepair(text[2..], after);
        assert Lead(text) == 2 + Lead(text[2..]);
      } else {
        assert |text| > 1 ==> next[0] == text[1];
        assert Lead(text[1..]) == 0;
      }
    } else {
      ClosedStep(text, after);
      var e := Emit(text[0], Closed(text[1..], after), VALUE);
      var more := Repair(Closed(text[1..], after), Shift(text[0], Closed(text[1..], after), VALUE));
      if |e| == 2 {
        LeadStep('"', more);
        LeadStep('\\', ['"'] + more);
        assert e + more == ['\\'] + (['"'] + more);
      } else {
        LeadStep(text[0], more);
      }
    }
  }

  lemma LeadStep(c: char, s: string)
    ensures Lead([c] + s) == if c == '\\' then 1 + Lead(s) else 0
  {
    assert ([c] + s)[1..] == s;
  }

  lemma {:induction false} LeadOfEscape(text: string, expected: string)
    ensures Lead(Closed(Escape(text), expected)) >= 2 * Lead(text)
  {
    if text != [] && text[0] == '\\' {
      EscapeStep(text, expected);
      var more := Closed(Escape(text[1..]), expected);
      LeadOfEscape(text[1..], expected);
      LeadStep('\\', more);
      LeadStep('\\', ['\\'] + more);
      assert EscapeChar(text[0]) + more == ['\\'] + (['\\'] + more);
    }
  }

  /** Raw text comes out escaped exactly when it is repairable; what follows it is independent. */
  lemma {:induction false} RepairText(text: string, after: string, expected: string)
    requires Closing(after)
    ensures Repair(Closed(text, after), VALUE) == Closed(Escape(text), expected)
       <==> Repairable(text) && Repair(after, START) == expected
  {
    if text == [] {
      assert Closed(text, after) == ['"'] + after;
      RepairStep('"', after, VALUE);
      assert Closed(Escape(text), expected) == ['"'] + expected;
      SameHead('"', Repair(after, START), expected);
    } else if text[0] == '\\' {
      LeadOfRepair(text, after);
      LeadOfEscape(text, expected);
    } else {
      ClosedStep(text, after);
      EscapeStep(text, expected);
      RepairText(text[1..], after, expected);
      if text[0] == '"' {
        RepairQuote(text, after, expected);
      } else if !IsControl(text[0]) {
        SameHead(text[0], Repair(Closed(text[1..], after), VALUE), Closed(Escape(text[1..]), expected));
      }
    }
  }

  lemma RepairQuote(text: string, after: string, expected: string)
    requires text != [] && text[0] == '"'
    ensures Repair(Closed(text, after), VALUE) == Closed(Escape(text), expected)
       <==> !Closing(text[1..]) && Repair(Closed(text[1..], after), VALUE) == Closed(Escape(text[1..]), expected)
  {
    ClosedStep(text, after);
    EscapeStep(text, expected);
    ClosingInContext(text[1..], after);
    var rest := Closed(text[1..], after);
    var escaped := Closed(Escape(text[1..]), expected);
    if Closing(rest) {
      assert Emit('"', rest, VALUE) == ['"'];
      assert (['"'] + Repair(rest, Shift('"', rest, VALUE)))[0] == '"';
      assert (['\\', '"'] + escaped)[0] == '\\';
    } else {
      assert Emit('"', rest, VALUE) == ['\\', '"'] && Shift('"', rest, VALUE) == VALUE;
      SamePrefix(['\\', '"'], Repair(rest, VALUE), escaped);
    }
  }

  lemma SameHead(c: char, a: string, b: string)
    ensures [c] + a == [c] + b <==> a == b
  {
    assert ([c] + a)[1..] == a && ([c] + b)[1..] == b;
  }

  lemma SamePrefix(p: string, a: string, b: string)
    ensures p + a == p + b <==> a == b
  {
    assert (p + a)[|p|..] == a && (p + b)[|p|..] == b;
  }

  // A whole object ----------------------------------------------------------------------------

  predicate AllRepairable(ms: seq<Member>) {
    forall i :: 0 <= i < |ms| && ms[i].value.Str? ==> Repairable(ms[i].value.text)
  }

  lemma {:induction false} SpaceThenClosing(tail: string, rest: string)
    requires AllJsonSpace(tail) && rest != [] && (rest[0] == ',' || rest[0] == '}')
    ensures Closing(tail + rest)
  {
    if tail == [] {
      assert tail + rest == rest;
    } else {
      assert tail[0] in tail && IsWhitespace(tail[0]);
      assert (tail + rest)[0] == tail[0] && (tail + rest)[1..] == tail[1..] + rest;
      SpaceThenClosing(tail[1..], rest);
    }
  }

  /** The value and all behind it come out escaped exactly when the value's quotes are inside and the rest comes out right. */
  lemma RepairValue(v: Value, tail: string, rest: string, expected: string)
    requires WellLaidOut(Member("", "", v, tail))
    requires rest != [] && (rest[0] == ',' || rest[0] == '}')
    ensures Repair(PrintValue(v, false) + (tail + rest), Scan(false, false, true)) == PrintValue(v, true) + (tail + expected)
       <==> (v.Str? ==> Repairable(v.text)) && Repair(rest, START) == expected
  {
    match v
    case Str(text) => RepairString(text, tail, rest, expected);
    case Raw(token) =>
      Regroup(token, tail, rest);
      SkipToken(token + tail, rest);
      Regroup(token, tail, expected);
      SamePrefix(token + tail, Repair(rest, START), expected);
  }

  lemma RepairString(text: string, tail: string, rest: string, expected: string)
    requires AllJsonSpace(tail) && rest != [] && (rest[0] == ',' || rest[0] == '}')
    ensures Repair(PrintValue(Str(text), false) + (tail + rest), Scan(false, false, true))
         == PrintValue(Str(text), true) + (tail + expected)
       <==> Repairable(text) && Repair(rest, START) == expected
  {
    var after := tail + rest;
    SkipIdle(tail, rest);
    SamePrefix(tail, Repair(rest, START), expected);
    SpaceThenClosing(tail, rest);
    assert PrintValue(Str(text), false) + after == ['"'] + Closed(text, after);
    RepairStep('"', Closed(text, after), Scan(false, false, true));
    RepairText(text, after, tail + expected);
    assert PrintValue(Str(text), true) + (tail + expected) == ['"'] + Closed(Escape(text), tail + expected);
    SameHead('"', Repair(Closed(text, after), VALUE), Closed(Escape(text), tail + expected));
  }

  lemma {:induction false} RepairMembers(ms: seq<Member>)
    requires forall i :: 0 <= i < |ms| ==> WellLaidOut(ms[i])
    ensures Repair(PrintMembers(ms, false), START) == PrintMembers(ms, true) <==> AllRepairable(ms)
    decreases |ms|, 1
  {
    if ms != [] {
      var m := ms[0];
      var rest := if |ms| == 1 then "}" else "," + PrintMembers(ms[1..], false);
      var expected := if |ms| == 1 then "}" else "," + PrintMembers(ms[1..], true);
      RestOfMembers(ms);
      RepairMember(m, rest, expected);
    }
  }

  lemma RepairMember(m: Member, rest: string, expected: string)
    requires WellLaidOut(m) && rest != [] && (rest[0] == ',' || rest[0] == '}')
    ensures Repair(m.name + (":" + (m.gap + (PrintValue(m.value, false) + (m.tail + rest)))), START)
         == m.name + (":" + (m.gap + (PrintValue(m.value, true) + (m.tail + expected))))
       <==> (m.value.Str? ==> Repairable(m.value.text)) && Repair(rest, START) == expected
  {
    var w := Scan(false, false, true);
    var value := PrintValue(m.value, false) + (m.tail + rest);
    var value' := PrintValue(m.value, true) + (m.tail + expected);
    RepairValue(m.value, m.tail, rest, expected);
    SkipGap(m.gap, value);
    SamePrefix(m.gap, Repair(value, w), value');
    RepairStep(':', m.gap + value, START);
    SameHead(':', Repair(m.gap + value, w), m.gap + value');
    SkipIdle(m.name, ":" + (m.gap + value));
    SamePrefix(m.name, Repair(":" + (m.gap + value), START), ":" + (m.gap + value'));
  }

  lemma {:induction false} RestOfMembers(ms: seq<Member>)
    requires ms != [] && forall i :: 0 <= i < |ms| ==> WellLaidOut(ms[i])
    ensures var rest := if |ms| == 1 then "}" else "," + PrintMembers(ms[1..], false);
            var expected := if |ms| == 1 then "}" else "," + PrintMembers(ms[1..], true);
            Repair(rest, START) == expected <==> AllRepairable(ms[1..])
    decreases |ms|, 0
  {
    if |ms| == 1 {
      RepairStep('}', [], START);
    } else {
      RepairMembers(ms[1..]);
      RepairStep(',', PrintMembers(ms[1..], false), START);
      SameHead(',', Repair(PrintMembers(ms[1..], false), START), PrintMembers(ms[1..], true));
    }
  }

  /** Between position i of the text and the next visible character j there is only white space. */
  predicate NextVisibleAt(text: string, i: int, j: nat) {
    i < j < |text| && !IsWhitespace(text[j]) && forall k: nat :: i < k < j ==> IsWhitespace(text[k])
  }

  /** The next visible character of the text behind position i exists and cannot stand behind a value. */
  ghost predicate Inside(text: string, i: int) {
    exists j: nat :: NextVisibleAt(text, i, j)
      && text[j] != ',' && text[j] != '}' && text[j] != ']' && text[j] != ':' && text[j] != '"'
  }

  /** Neither backslashes nor control characters, and every quote stands inside. */
  ghost predicate Unambiguous(text: string) {
    forall i :: 0 <= i < |text| ==> text[i] != '\\' && text[i] as int >= 0x20 && (text[i] == '"' ==> Inside(text, i))
  }

  lemma NextVisibleBehind(text: string, i: int, j: nat)
    requires -1 <= i && text != []
    ensures NextVisibleAt(text, i + 1, j + 1) <==> NextVisibleAt(text[1..], i, j)
  {
    if NextVisibleAt(text, i + 1, j + 1) {
      forall k: nat | i < k < j ensures IsWhitespace(text[1..][k]) { assert text[k + 1] == text[1..][k]; }
    }
    if NextVisibleAt(text[1..], i, j) {
      forall k: nat | i + 1 < k < j + 1 ensures IsWhitespace(text[k]) { assert text[k] == text[1..][k - 1]; }
    }
  }

  lemma InsideBehind(text: string, i: int)
    requires -1 <= i && text != []
    ensures Inside(text, i + 1) <==> Inside(text[1..], i)
  {
    if j: nat :| NextVisibleAt(text, i + 1, j)
                 && text[j] != ',' && text[j] != '}' && text[j] != ']' && text[j] != ':' && text[j] != '"' {
      NextVisibleBehind(text, i, j - 1);
      assert text[j] == text[1..][j - 1];
    }
    if j: nat :| NextVisibleAt(text[1..], i, j)
                 && text[1..][j] != ',' && text[1..][j] != '}' && text[1..][j] != ']' && text[1..][j] != ':' && text[1..][j] != '"' {
      NextVisibleBehind(text, i, j);
      assert text[j + 1] == text[1..][j];
    }
  }

  lemma {:induction false} ClosingIffNotInside(rest: string)
    ensures Closing(rest) <==> !Inside(rest, -1)
  {
    if rest != [] {
      if IsWhitespace(rest[0]) {
        ClosingIffNotInside(rest[1..]);
        InsideBehind(rest, -1);
        forall j: nat ensures NextVisibleAt(rest, -1, j) <==> NextVisibleAt(rest, 0, j) { }
        assert Inside(rest, -1) <==> Inside(rest, 0);
      } else {
        assert NextVisibleAt(rest, -1, 0);
        forall j: nat | NextVisibleAt(rest, -1, j) ensures j == 0 { }
      }
    }
  }

  lemma {:induction false} RepairableIff(text: string)
    ensures Repairable(text) <==> Unambiguous(text)
  {
    if text != [] {
      RepairableIff(text[1..]);
      ClosingIffNotInside(text[1..]);
      InsideBehind(text, -1);
      forall i | 0 <= i < |text[1..]| ensures text[1..][i] == text[i + 1] && (Inside(text, i + 1) <==> Inside(text[1..], i)) {
        InsideBehind(text, i);
      }
      if Unambiguous(text) {
        forall i | 0 <= i < |text[1..]|
          ensures text[1..][i] != '\\' && text[1..][i] as int >= 0x20 && (text[1..][i] == '"' ==> Inside(text[1..], i))
        {
          assert text[i + 1] == text[1..][i];
        }
      }
      if Unambiguous(text[1..]) {
        forall i | 0 < i < |text| ensures text[i] != '\\' && text[i] as int >= 0x20 && (text[i] == '"' ==> Inside(text, i)) {
          assert text[i] == text[1..][i - 1];
          assert Inside(text, i) <==> Inside(text[1..], i - 1);
        }
      }
    }
  }

  /**
   * Repair undoes missing escaping: a flat object printed with raw values comes out correctly escaped
   * exactly when every text in it is unambiguous.
   */
  lemma RepairUndoesMissingEscapes(ms: seq<Member>)
    requires forall i :: 0 <= i < |ms| ==> WellLaidOut(ms[i])
    ensures Repair(PrintObject(ms, false), START) == PrintObject(ms, true)
       <==> forall i :: 0 <= i < |ms| && ms[i].value.Str? ==> Unambiguous(ms[i].value.text)
  {
    RepairStep('{', PrintMembers(ms, false), START);
    RepairMembers(ms);
    SameHead('{', Repair(PrintMembers(ms, false), START), PrintMembers(ms, true));
    forall i | 0 <= i < |ms| && ms[i].value.Str? ensures Repairable(ms[i].value.text) <==> Unambiguous(ms[i].value.text) {
      RepairableIff(ms[i].value.text);
    }
  }

  // Valid JSON is not always left alone --------------------------------------------------------

  /** An array string that ends in a colon makes its closing quote look like an opening one. */
  lemma ArrayStringEndingInColonIsDamaged()
    ensures Repair("[\"a:\",\"b\"]", START) == "[\"a:\",\\\"b\"]"
  {
    var w, rest := Scan(false, false, true), ",\"" + ("b\"" + "]");
    SkipIdle("[\"a", ":" + ("\"" + rest));
    RepairStep(':', "\"" + rest, START);
    RepairStep('"', rest, w);
    DamagedRest();
    WrittenOut();
  }

  lemma WrittenOut()
    ensures "[\"a" + (":" + ("\"" + (",\"" + ("b\"" + "]")))) == "[\"a:\",\"b\"]"
    ensures "[\"a" + (":" + ("\"" + (",\\\"b" + ("\"" + "]")))) == "[\"a:\",\\\"b\"]"
  {
  }

  lemma DamagedRest()
    ensures Repair(",\"" + ("b\"" + "]"), VALUE) == ",\\\"b" + ("\"" + "]")
  {
    DamagedTail();
    var tail := "b\"" + "]";
    assert NextVisible(tail) == Some('b');
    RepairStep('"', tail, VALUE);
    RepairStep(',', ['"'] + tail, VALUE);
    assert ",\"" + tail == [','] + (['"'] + tail);
    assert [','] + (['\\', '"'] + (['b'] + (['"'] + "]"))) == ",\\\"b" + ("\"" + "]");
  }

  lemma DamagedTail()
    ensures Repair("b\"" + "]", VALUE) == ['b'] + (['"'] + "]")
  {
    assert "b\"" + "]" == ['b'] + (['"'] + "]");
    RepairStep('b', ['"'] + "]", VALUE);
    assert NextVisible("]") == Some(']');
    RepairStep('"', "]", VALUE);
    RepairStep(']', "", START);
  }
}
