/** The glossary page (src/app/glossary/page.tsx): `parseGlossary` turns the
    glossary's markdown into terms line by line, the search box filters them
    by a case-insensitive substring, and the page groups the result by the
    section letter each term was written under. */
module Glossary {
  import opened Common
  import opened Strings

  datatype GlossaryTerm = GlossaryTerm(term: string, definition: string, letter: string)

  // ---------------------------------------------------------------------
  // The two header patterns

  /** The regex `\w` class. */
  predicate IsWordChar(c: char) {
    ('a' <= c <= 'z') || ('A' <= c <= 'Z') || ('0' <= c <= '9') || c == '_'
  }

  /** The characters the regex `.` does not match. */
  predicate IsLineTerminator(c: char) {
    c == '\n' || c == '\r' || c == '\U{2028}' || c == '\U{2029}'
  }

  /** Where the text after `^<hashes>\s+\*\*` starts, when the line begins
      that way. `\s+` cannot stop early, since `*` is not white space. */
  function HeaderBody(line: string, hashes: string): (r: Option<nat>)
    ensures r.Some? ==> && |hashes| + 3 <= r.value <= |line| && StartsWith(line, hashes)
                        && AllSpace(Js, line[|hashes|..r.value - 2]) && line[r.value - 2..r.value] == "**"
  {
    if StartsWith(line, hashes) then
      var p := |hashes| + SpaceRun(Js, line, |hashes|);
      if p > |hashes| && p + 2 <= |line| && line[p..p + 2] == "**" then Some(p + 2) else None
    else None
  }

  /** Any way of reading the line as `<hashes>`, at least one white-space
      character and `**` is the one `HeaderBody` finds. */
  lemma HeaderBodyComplete(line: string, hashes: string, n: nat)
    requires n >= 1 && StartsWith(line, hashes) && |hashes| + n + 2 <= |line|
    requires AllSpace(Js, line[|hashes|..|hashes| + n]) && line[|hashes| + n..|hashes| + n + 2] == "**"
    ensures HeaderBody(line, hashes) == Some(|hashes| + n + 2)
  {
    var h := |hashes|;
    assert line[h + n] == '*' by {
      assert line[h + n..h + n + 2][0] == line[h + n];
    }
    SpaceRunExact(Js, line, h, n);
  }

  // `line.match(/^##\s+\*\*(\w)\*\*/)`: the captured letter.
  function LetterHeader(line: string): (r: Option<char>)
    ensures r.Some? ==> IsWordChar(r.value) && HeaderBody(line, "##").Some?
    ensures r.Some? ==> var p := HeaderBody(line, "##").value;
                        p + 3 <= |line| && line[p] == r.value && line[p + 1..p + 3] == "**"
  {
    match HeaderBody(line, "##")
    case None => None
    case Some(p) =>
      if p + 3 <= |line| && IsWordChar(line[p]) && line[p + 1..p + 3] == "**" then Some(line[p]) else None
  }

  /** Every line of the shape `##`, white space, `**`, one `\w` and `**` is a
      letter header, and its letter is that word character. */
  lemma LetterHeaderComplete(line: string)
    requires HeaderBody(line, "##").Some?
    requires var p := HeaderBody(line, "##").value;
      p + 3 <= |line| && IsWordChar(line[p]) && line[p + 1..p + 3] == "**"
    ensures LetterHeader(line) == Some(line[HeaderBody(line, "##").value])
  {
  }

  /** A `**` starts at position `q`. */
  predicate ClosesAt(line: string, q: int) {
    0 <= q && q + 2 <= |line| && line[q..q + 2] == "**"
  }

  /** The lazy `(.+?)\*\*` from `p` on, having already passed `p..q`: the
      first `q' >= q` where `**` starts, provided no line terminator comes first. */
  function LazyEnd(line: string, p: nat, q: nat): (r: Option<nat>)
    requires p < q <= |line|
    requires forall k :: p <= k < q ==> !IsLineTerminator(line[k])
    ensures r.Some? ==> q <= r.value && ClosesAt(line, r.value)
    ensures r.Some? ==> forall k :: p <= k < r.value ==> !IsLineTerminator(line[k])
    ensures r.Some? ==> forall k :: q <= k < r.value ==> !ClosesAt(line, k)
    ensures r.None? ==> forall k :: q <= k && ClosesAt(line, k) ==> exists j :: q <= j < k && IsLineTerminator(line[j])
    decreases |line| - q
  {
    if ClosesAt(line, q) then Some(q)
    else if q < |line| && !IsLineTerminator(line[q]) then LazyEnd(line, p, q + 1)
    else None
  }

  // `line.match(/^###\s+\*\*(.+?)\*\*/)`: the captured term, the shortest
  // non-empty run of characters other than line terminators that is followed by `**`.
  function TermHeader(line: string): (r: Option<string>)
    ensures r.Some? ==> r.value != [] && HeaderBody(line, "###").Some?
    ensures r.Some? ==> forall c :: c in r.value ==> !IsLineTerminator(c)
    ensures r.Some? ==> var p := HeaderBody(line, "###").value;
                        && p + |r.value| <= |line| && line[p..p + |r.value|] == r.value
                        && ClosesAt(line, p + |r.value|)
                        && forall k :: p < k < p + |r.value| ==> !ClosesAt(line, k)
  {
    match HeaderBody(line, "###")
    case None => None
    case Some(p) =>
      if p < |line| && !IsLineTerminator(line[p]) then
        match LazyEnd(line, p, p + 1)
        case None => None
        case Some(q) => Some(line[p..q])
      else None
  }

  /** A `### **` line with some `**` after a non-empty, terminator-free run
      yields a term. */
  lemma TermHeaderComplete(line: string, q: nat)
    requires HeaderBody(line, "###").Some?
    requires HeaderBody(line, "###").value < q && ClosesAt(line, q)
    requires forall k :: HeaderBody(line, "###").value <= k < q ==> !IsLineTerminator(line[k])
    ensures TermHeader(line).Some?
  {
  }

  // ---------------------------------------------------------------------
  // The parser, as a specification: one step per line

  /** `parseGlossary`'s locals. */
  datatype ParserState = ParserState(
    currentLetter: string,
    currentTerm: string,
    collectingDef: bool,
    defLines: seq<string>,
    terms: seq<GlossaryTerm>)

  const Initial: ParserState := ParserState("", "", false, [], [])

  /** The three places that push a term: only when a term is open and it
      collected a line; the definition is the lines joined by spaces, trimmed. */
  function Flush(st: ParserState): seq<GlossaryTerm> {
    if st.currentTerm != "" && |st.defLines| > 0 then
      st.terms + [GlossaryTerm(st.currentTerm, Trim(Js, Join(st.defLines, " ")), st.currentLetter)]
    else st.terms
  }

  /** A line that ends a definition: blank after `trim()`, or starting with `---`. */
  predicate EndsDefinition(line: string) {
    Trim(Js, line) == [] || StartsWith(line, "---")
  }

  /** One iteration of the `for` loop. */
  function StepLine(st: ParserState, line: string): ParserState {
    match LetterHeader(line)
    case Some(c) => st.(currentLetter := [c])
    case None =>
      match TermHeader(line)
      case Some(t) => st.(terms := Flush(st), currentTerm := t, defLines := [], collectingDef := true)
      case None =>
        if !st.collectingDef then st
        else if EndsDefinition(line) then st.(terms := Flush(st), currentTerm := "", defLines := [], collectingDef := false)
        else st.(defLines := st.defLines + [Trim(Js, line)])
  }

  /** `StepLine` branch by branch, in the loop's own terms. */
  lemma StepLineCases(st: ParserState, line: string)
    ensures LetterHeader(line).Some? ==> StepLine(st, line) == st.(currentLetter := [LetterHeader(line).value])
    ensures LetterHeader(line).None? && TermHeader(line).Some? ==>
      StepLine(st, line) == st.(terms := Flush(st), currentTerm := TermHeader(line).value, defLines := [], collectingDef := true)
    ensures LetterHeader(line).None? && TermHeader(line).None? && !st.collectingDef ==> StepLine(st, line) == st
    ensures LetterHeader(line).None? && TermHeader(line).None? && st.collectingDef && EndsDefinition(line) ==>
      StepLine(st, line) == st.(terms := Flush(st), currentTerm := "", defLines := [], collectingDef := false)
    ensures LetterHeader(line).None? && TermHeader(line).None? && st.collectingDef && !EndsDefinition(line) ==>
      StepLine(st, line) == st.(defLines := st.defLines + [Trim(Js, line)])
  {
  }

  /** The loop run over `lines` from state `st`. */
  function RunFrom(st: ParserState, lines: seq<string>): ParserState
    decreases |lines|
  {
    if lines == [] then st else StepLine(RunFrom(st, lines[..|lines| - 1]), lines[|lines| - 1])
  }

  /** `parseGlossary(md)`: split on `\n`, run the loop, push the last term. */
  function ParseSpec(md: string): seq<GlossaryTerm> {
    Flush(RunFrom(Initial, Split(md, '\n')))
  }

  /** One pass of `parseGlossary`'s loop body over `line`, updating the four
      locals and the output list as the branches of the loop do. */
  method ParseLine(currentLetter0: string, currentTerm0: string, collectingDef0: bool,
                   defLines0: seq<string>, terms0: seq<GlossaryTerm>, line: string)
    returns (currentLetter: string, currentTerm: string, collectingDef: bool,
             defLines: seq<string>, terms: seq<GlossaryTerm>)
    ensures ParserState(currentLetter, currentTerm, collectingDef, defLines, terms)
         == StepLine(ParserState(currentLetter0, currentTerm0, collectingDef0, defLines0, terms0), line)
  {
    ghost var before := ParserState(currentLetter0, currentTerm0, collectingDef0, defLines0, terms0);
    StepLineCases(before, line);
    currentLetter, currentTerm, collectingDef, defLines, terms := currentLetter0, currentTerm0, collectingDef0, defLines0, terms0;
    var letterMatch := LetterHeader(line);
    if letterMatch.Some? {
      currentLetter := [letterMatch.value];
    } else {
      var termMatch := TermHeader(line);
      if termMatch.Some? {
        if currentTerm != "" && |defLines| > 0 {
          terms := terms + [GlossaryTerm(currentTerm, Trim(Js, Join(defLines, " ")), currentLetter)];
        }
        assert terms == Flush(before);
        currentTerm := termMatch.value;
        defLines := [];
        collectingDef := true;
      } else if collectingDef {
        if Trim(Js, line) == "" || StartsWith(line, "---") {
          if currentTerm != "" && |defLines| > 0 {
            terms := terms + [GlossaryTerm(currentTerm, Trim(Js, Join(defLines, " ")), currentLetter)];
          }
          assert terms == Flush(before);
          currentTerm := "";
          defLines := [];
          collectingDef := false;
        } else {
          defLines := defLines + [Trim(Js, line)];
        }
      }
    }
  }

  /** `parseGlossary` itself, with its four mutable locals and its `for` loop. */
  method ParseGlossary(md: string) returns (terms: seq<GlossaryTerm>)
    ensures terms == ParseSpec(md)
  {
    var lines := Split(md, '\n');
    var currentLetter := "";
    var currentTerm := "";
    var collectingDef := false;
    var defLines: seq<string> := [];
    terms := [];
    var i := 0;
    while i < |lines|
      invariant 0 <= i <= |lines|
      invariant ParserState(currentLetter, currentTerm, collectingDef, defLines, terms) == RunFrom(Initial, lines[..i])
    {
      assert lines[..i + 1][..i] == lines[..i] && lines[..i + 1][i] == lines[i];
      currentLetter, currentTerm, collectingDef, defLines, terms :=
        ParseLine(currentLetter, currentTerm, collectingDef, defLines, terms, lines[i]);
      i := i + 1;
    }
    assert lines[..|lines|] == lines;
    ghost var last := ParserState(currentLetter, currentTerm, collectingDef, defLines, terms);
    assert last == RunFrom(Initial, lines);
    if currentTerm != "" && |defLines| > 0 {
      terms := terms + [GlossaryTerm(currentTerm, Trim(Js, Join(defLines, " ")), currentLetter)];
    }
    assert terms == Flush(last);
  }

  // ---------------------------------------------------------------------
  // What the parser produces

  predicate LetterOk(letter: string) {
    letter == [] || (|letter| == 1 && IsWordChar(letter[0]))
  }

  /** A term the parser can emit: a non-empty name, a non-empty definition
      with no white space at either end, and a letter that is empty or one `\w`. */
  predicate TermOk(t: GlossaryTerm) {
    t.term != [] && t.definition != [] && IsTrimmed(Js, t.definition) && LetterOk(t.letter)
  }

  predicate StateOk(st: ParserState) {
    && LetterOk(st.currentLetter)
    && (forall i :: 0 <= i < |st.terms| ==> TermOk(st.terms[i]))
    && (forall i :: 0 <= i < |st.defLines| ==> st.defLines[i] != [] && IsTrimmed(Js, st.defLines[i]))
  }

  /** Definition lines are trimmed and non-empty, so the final `trim()` of
      their join changes nothing: the definition is the lines joined by single spaces. */
  lemma JoinedLinesTrimmed(parts: seq<string>)
    requires |parts| >= 1
    requires forall i :: 0 <= i < |parts| ==> parts[i] != [] && IsTrimmed(Js, parts[i])
    ensures Trim(Js, Join(parts, " ")) == Join(parts, " ") != []
  {
    JoinEnds(parts, " ");
  }

  lemma FlushOk(st: ParserState)
    requires StateOk(st)
    ensures forall i :: 0 <= i < |Flush(st)| ==> TermOk(Flush(st)[i])
  {
    if st.currentTerm != "" && |st.defLines| > 0 {
      var t := GlossaryTerm(st.currentTerm, Trim(Js, Join(st.defLines, " ")), st.currentLetter);
      JoinedLinesTrimmed(st.defLines);
      assert TermOk(t);
      assert Flush(st) == st.terms + [t];
    }
  }

  /** One line of the loop keeps the parser state well formed. */
  lemma StepLineOk(st: ParserState, line: string)
    requires StateOk(st)
    ensures StateOk(StepLine(st, line))
  {
    var next := StepLine(st, line);
    if LetterHeader(line).Some? {
      assert next == st.(currentLetter := [LetterHeader(line).value]);
    } else if TermHeader(line).Some? {
      FlushOk(st);
      assert next.terms == Flush(st) && next.defLines == [];
    } else if !st.collectingDef {
      assert next == st;
    } else if EndsDefinition(line) {
      FlushOk(st);
      assert next.terms == Flush(st) && next.defLines == [];
    } else {
      var t := Trim(Js, line);
      assert t != [] && IsTrimmed(Js, t);
      assert next == st.(defLines := st.defLines + [t]);
    }
  }

  lemma {:induction false} RunFromOk(st: ParserState, lines: seq<string>)
    requires StateOk(st)
    ensures StateOk(RunFrom(st, lines))
    decreases |lines|
  {
    if lines != [] {
      var prev := RunFrom(st, lines[..|lines| - 1]);
      RunFromOk(st, lines[..|lines| - 1]);
      StepLineOk(prev, lines[|lines| - 1]);
    }
  }

  /** Every term `parseGlossary` emits has a name, a non-empty definition
      without surrounding white space, and a letter that is empty or one `\w`. */
  lemma ParsedTermsOk(md: string)
    ensures forall i :: 0 <= i < |ParseSpec(md)| ==> TermOk(ParseSpec(md)[i])
  {
    RunFromOk(Initial, Split(md, '\n'));
    FlushOk(RunFrom(Initial, Split(md, '\n')));
  }

  // ---------------------------------------------------------------------
  // Order: terms come out in the order of their headers

  function Names(ts: seq<GlossaryTerm>): seq<string>
    decreases |ts|
  {
    if ts == [] then [] else Names(ts[..|ts| - 1]) + [ts[|ts| - 1].term]
  }

  /** The names captured by the term headers of `lines`, in order. */
  function Headers(lines: seq<string>): seq<string>
    decreases |lines|
  {
    if lines == [] then []
    else
      var last := lines[|lines| - 1];
      Headers(lines[..|lines| - 1]) +
        (if LetterHeader(last).None? && TermHeader(last).Some? then [TermHeader(last).value] else [])
  }

  function Pending(st: ParserState): seq<string> {
    if st.currentTerm != "" then [st.currentTerm] else []
  }

  lemma NamesAppend(ts: seq<GlossaryTerm>, t: GlossaryTerm)
    ensures Names(ts + [t]) == Names(ts) + [t.term]
  {
    assert (ts + [t])[..|ts|] == ts;
  }

  /** The names `Flush` emits are those already emitted, possibly followed by the open term. */
  lemma FlushNames(st: ParserState, hs: seq<string>)
    requires IsSubsequence(Names(st.terms) + Pending(st), hs)
    ensures IsSubsequence(Names(Flush(st)), hs)
  {
    if st.currentTerm != "" {
      if |st.defLines| > 0 {
        NamesAppend(st.terms, GlossaryTerm(st.currentTerm, Trim(Js, Join(st.defLines, " ")), st.currentLetter));
      } else {
        SubsequenceDropLast(Names(st.terms), st.currentTerm, hs);
      }
    } else {
      assert Names(st.terms) + Pending(st) == Names(st.terms);
    }
  }

  lemma {:induction false} RunFromOrder(lines: seq<string>)
    ensures IsSubsequence(Names(RunFrom(Initial, lines).terms) + Pending(RunFrom(Initial, lines)), Headers(lines))
    decreases |lines|
  {
    if lines != [] {
      var init := lines[..|lines| - 1];
      var line := lines[|lines| - 1];
      var st := RunFrom(Initial, init);
      RunFromOrder(init);
      var hs := Headers(init);
      assert RunFrom(Initial, lines) == StepLine(st, line);
      if LetterHeader(line).Some? {
        assert Headers(lines) == hs;
        assert Names(RunFrom(Initial, lines).terms) + Pending(RunFrom(Initial, lines)) == Names(st.terms) + Pending(st);
      } else if TermHeader(line).Some? {
        var t := TermHeader(line).value;
        FlushNames(st, hs);
        SubsequenceAppend(Names(Flush(st)), hs, t);
        assert Headers(lines) == hs + [t];
        assert Names(RunFrom(Initial, lines).terms) + Pending(RunFrom(Initial, lines)) == Names(Flush(st)) + [t];
      } else {
        assert Headers(lines) == hs;
        if st.collectingDef && EndsDefinition(line) {
          FlushNames(st, hs);
          assert Names(RunFrom(Initial, lines).terms) + Pending(RunFrom(Initial, lines)) == Names(Flush(st));
        } else {
          assert Names(RunFrom(Initial, lines).terms) + Pending(RunFrom(Initial, lines)) == Names(st.terms) + Pending(st);
        }
      }
    }
  }

  /** The emitted names are a subsequence of the term headers' names: terms
      come out in the order their headers appear, some headers left out. */
  lemma ParsedInHeaderOrder(md: string)
    ensures IsSubsequence(Names(ParseSpec(md)), Headers(Split(md, '\n')))
  {
    var lines := Split(md, '\n');
    RunFromOrder(lines);
    FlushNames(RunFrom(Initial, lines), Headers(lines));
  }

  // ---------------------------------------------------------------------
  // One term block

  /** A line that the loop adds to the definition being collected. */
  predicate PlainDefLine(line: string) {
    LetterHeader(line).None? && TermHeader(line).None? && !EndsDefinition(line)
  }

  /** Each line trimmed, in order. */
  function TrimAll(lines: seq<string>): (r: seq<string>)
    ensures |r| == |lines|
    decreases |lines|
  {
    if lines == [] then [] else TrimAll(lines[..|lines| - 1]) + [Trim(Js, lines[|lines| - 1])]
  }

  lemma {:induction false} TrimAllAt(lines: seq<string>, i: nat)
    requires i < |lines|
    ensures TrimAll(lines)[i] == Trim(Js, lines[i])
    decreases |lines|
  {
    if i < |lines| - 1 {
      TrimAllAt(lines[..|lines| - 1], i);
    }
  }

  lemma {:induction false} RunFromConcat(st: ParserState, a: seq<string>, b: seq<string>)
    ensures RunFrom(st, a + b) == RunFrom(RunFrom(st, a), b)
    decreases |b|
  {
    if b == [] {
      assert a + b == a;
    } else {
      assert (a + b)[..|a + b| - 1] == a + b[..|b| - 1];
      RunFromConcat(st, a, b[..|b| - 1]);
    }
  }

  /** While collecting, plain lines are trimmed and appended, nothing else changes. */
  lemma {:induction false} CollectBody(st: ParserState, body: seq<string>)
    requires st.collectingDef
    requires forall i :: 0 <= i < |body| ==> PlainDefLine(body[i])
    ensures RunFrom(st, body) == st.(defLines := st.defLines + TrimAll(body))
    decreases |body|
  {
    if body == [] {
      assert st.defLines + TrimAll(body) == st.defLines;
    } else {
      CollectBody(st, body[..|body| - 1]);
      assert st.defLines + TrimAll(body) == st.defLines + TrimAll(body[..|body| - 1]) + [Trim(Js, body[|body| - 1])];
    }
  }

  /** A term header, at least one plain definition line and a line that ends
      the definition emit exactly one term: the header's name, the trimmed
      lines joined by single spaces, and the letter current at that point. */
  lemma TermBlock(st: ParserState, header: string, body: seq<string>, end: string)
    requires LetterHeader(header).None? && TermHeader(header).Some?
    requires |body| >= 1 && forall i :: 0 <= i < |body| ==> PlainDefLine(body[i])
    requires LetterHeader(end).None? && TermHeader(end).None? && EndsDefinition(end)
    ensures RunFrom(st, [header] + body + [end]).terms ==
      Flush(st) + [GlossaryTerm(TermHeader(header).value, Join(TrimAll(body), " "), st.currentLetter)]
    ensures !RunFrom(st, [header] + body + [end]).collectingDef
  {
    var t := TermHeader(header).value;
    var s1 := st.(terms := Flush(st), currentTerm := t, defLines := [], collectingDef := true);
    assert RunFrom(st, [header]) == s1 by {
      assert [header][..0] == [];
      assert StepLine(st, header) == s1;
    }
    RunFromConcat(st, [header], body);
    CollectBody(s1, body);
    var s2 := s1.(defLines := TrimAll(body));
    assert RunFrom(st, [header] + body) == s2 by {
      assert [] + TrimAll(body) == TrimAll(body);
    }
    RunFromConcat(st, [header] + body, [end]);
    assert RunFrom(s2, [end]) == StepLine(s2, end) by {
      assert [end][..0] == [];
    }
    forall i | 0 <= i < |body|
      ensures TrimAll(body)[i] != [] && IsTrimmed(Js, TrimAll(body)[i])
    {
      TrimAllAt(body, i);
    }
    JoinedLinesTrimmed(TrimAll(body));
    assert Flush(s2) == Flush(st) + [GlossaryTerm(t, Join(TrimAll(body), " "), st.currentLetter)];
  }

  /** Once a definition has ended, lines up to the next term header change
      neither the emitted terms nor the open term: they are ignored. */
  lemma {:induction false} IgnoredUntilHeader(st: ParserState, rest: seq<string>)
    requires !st.collectingDef
    requires forall i :: 0 <= i < |rest| ==> LetterHeader(rest[i]).Some? || TermHeader(rest[i]).None?
    ensures var after := RunFrom(st, rest);
      after.terms == st.terms && after.currentTerm == st.currentTerm
      && after.defLines == st.defLines && !after.collectingDef
    decreases |rest|
  {
    if rest != [] {
      IgnoredUntilHeader(st, rest[..|rest| - 1]);
    }
  }

  /** A letter header sets the letter and leaves the definition being collected alone. */
  lemma LetterKeepsDefinition(st: ParserState, line: string)
    requires LetterHeader(line).Some?
    ensures StepLine(st, line).currentLetter == [LetterHeader(line).value]
    ensures StepLine(st, line).(currentLetter := st.currentLetter) == st
  {
  }

  // ---------------------------------------------------------------------
  // Search

  /** The term's name or definition, lower-cased, contains the lower-cased search. */
  predicate Matches(t: GlossaryTerm, search: string) {
    Contains(Lower(t.term), Lower(search)) || Contains(Lower(t.definition), Lower(search))
  }

  function Keep(terms: seq<GlossaryTerm>, search: string): (r: seq<GlossaryTerm>)
    ensures IsSubsequence(r, terms)
    ensures forall i :: 0 <= i < |r| ==> Matches(r[i], search)
    ensures forall t {:trigger multiset(r)[t]} :: multiset(r)[t] == if Matches(t, search) then multiset(terms)[t] else 0
    decreases |terms|
  {
    if terms == [] then []
    else
      var rest := Keep(terms[1..], search);
      SubsequenceSkip(rest, terms[1..], terms[0]);
      assert [terms[0]] + terms[1..] == terms;
      assert multiset(terms) == multiset{terms[0]} + multiset(terms[1..]);
      if Matches(terms[0], search) then
        assert ([terms[0]] + rest)[1..] == rest;
        [terms[0]] + rest
      else rest
  }

  /** `filteredTerms`: every term for a blank search; otherwise, in order,
      exactly the terms whose name or definition contains the search, ignoring case. */
  function FilterTerms(all: seq<GlossaryTerm>, search: string): (r: seq<GlossaryTerm>)
    ensures AllSpace(Js, search) ==> r == all
    ensures !AllSpace(Js, search) ==> IsSubsequence(r, all)
    ensures !AllSpace(Js, search) ==> forall t :: t in r ==> Matches(t, search)
    ensures !AllSpace(Js, search) ==> forall t {:trigger multiset(r)[t]} :: multiset(r)[t] == if Matches(t, search) then multiset(all)[t] else 0
  {
    if Trim(Js, search) == [] then all else Keep(all, search)
  }

  // ---------------------------------------------------------------------
  // Grouping by letter

  /** The terms of letter `letter`, in order. */
  function Group(terms: seq<GlossaryTerm>, letter: string): (r: seq<GlossaryTerm>)
    ensures IsSubsequence(r, terms)
    ensures forall i :: 0 <= i < |r| ==> r[i].letter == letter
    ensures forall t {:trigger multiset(r)[t]} :: multiset(r)[t] == if t.letter == letter then multiset(terms)[t] else 0
    decreases |terms|
  {
    if terms == [] then []
    else
      var init := terms[..|terms| - 1];
      var last := terms[|terms| - 1];
      var g := Group(init, letter);
      SubsequenceExtend(g, init, last);
      assert init + [last] == terms;
      assert multiset(terms) == multiset(init) + multiset{last};
      if last.letter == letter then
        SubsequenceAppend(g, init, last);
        g + [last]
      else g
  }

  function Letters(terms: seq<GlossaryTerm>): set<string> {
    set i | 0 <= i < |terms| :: terms[i].letter
  }

  lemma {:induction false} GroupOfAbsentLetter(terms: seq<GlossaryTerm>, letter: string)
    requires letter !in Letters(terms)
    ensures Group(terms, letter) == []
    decreases |terms|
  {
    if terms != [] {
      var init := terms[..|terms| - 1];
      assert Letters(init) <= Letters(terms) by {
        forall i | 0 <= i < |init| ensures init[i].letter in Letters(terms) {
          assert init[i] == terms[i];
        }
      }
      assert terms[|terms| - 1].letter in Letters(terms);
      GroupOfAbsentLetter(init, letter);
    }
  }

  /** Pushing one more term extends only the group of its own letter. */
  lemma GroupSnoc(terms: seq<GlossaryTerm>, t: GlossaryTerm, letter: string)
    ensures Group(terms + [t], letter) == if t.letter == letter then Group(terms, letter) + [t] else Group(terms, letter)
  {
    assert (terms + [t])[..|terms|] == terms;
  }

  /** One push of the grouping loop: if `groups` is the grouping of `before`,
      pushing `t` onto the list of its letter gives the grouping of `before + [t]`. */
  lemma PushKeepsGroups(before: seq<GlossaryTerm>, t: GlossaryTerm, groups: map<string, seq<GlossaryTerm>>)
    requires groups.Keys == Letters(before)
    requires forall letter :: letter in groups ==> groups[letter] == Group(before, letter)
    ensures var pushed := groups[t.letter := (if t.letter in groups then groups[t.letter] else []) + [t]];
      && pushed.Keys == Letters(before + [t])
      && forall letter :: letter in pushed ==> pushed[letter] == Group(before + [t], letter)
  {
    if t.letter !in groups {
      GroupOfAbsentLetter(before, t.letter);
    }
    var pushed := groups[t.letter := (if t.letter in groups then groups[t.letter] else []) + [t]];
    assert Letters(before + [t]) == Letters(before) + {t.letter} by {
      assert forall i :: 0 <= i < |before| ==> (before + [t])[i] == before[i];
      assert (before + [t])[|before|] == t;
    }
    forall letter | letter in pushed
      ensures pushed[letter] == Group(before + [t], letter)
    {
      GroupSnoc(before, t, letter);
    }
  }

  /** `grouped`: the loop that pushes each term onto the list of its letter.
      There is one group per letter that occurs, and each holds exactly that
      letter's terms in their order. */
  method GroupByLetter(terms: seq<GlossaryTerm>) returns (groups: map<string, seq<GlossaryTerm>>)
    ensures groups.Keys == Letters(terms)
    ensures forall letter :: letter in groups ==> groups[letter] == Group(terms, letter)
  {
    groups := map[];
    var i := 0;
    while i < |terms|
      invariant 0 <= i <= |terms|
      invariant groups.Keys == Letters(terms[..i])
      invariant forall letter :: letter in groups ==> groups[letter] == Group(terms[..i], letter)
    {
      var t := terms[i];
      PushKeepsGroups(terms[..i], t, groups);
      assert terms[..i + 1] == terms[..i] + [t];
      if t.letter !in groups {
        groups := groups[t.letter := []];
      }
      groups := groups[t.letter := groups[t.letter] + [t]];
      i := i + 1;
    }
    assert terms[..|terms|] == terms;
  }
}
