/** The scoring route (src/app/api/scoreOutcomes/route.ts): it lists the
    potential outcomes in the prompt, asks the completion service, trims the
    reply, parses it whole, and only when that fails parses the first
    `[ {...} ]` span the lazy pattern finds. The service's reply and
    `JSON.parse` are parameters. */
module ScoreRoute {
  import opened Common
  import opened Strings

  // ---------------------------------------------------------------------
  // The outcome list in the prompt

  const BulletPrefix: string := "- "

  /** `potentialOutcomes.map(o => `- ${o}`)`. */
  function OutcomeLines(outcomes: seq<string>): (lines: seq<string>)
    ensures |lines| == |outcomes|
    ensures forall i :: 0 <= i < |outcomes| ==> lines[i] == BulletPrefix + outcomes[i]
  {
    seq(|outcomes|, i requires 0 <= i < |outcomes| => BulletPrefix + outcomes[i])
  }

  /** The lines joined by `\n`. */
  function OutcomeText(outcomes: seq<string>): string {
    Join(OutcomeLines(outcomes), "\n")
  }

  /** Each outcome is one line of the rendered list, in input order, when no
      outcome contains a line break. */
  lemma OutcomeTextRoundTrip(outcomes: seq<string>)
    requires |outcomes| >= 1
    requires forall i :: 0 <= i < |outcomes| ==> '\n' !in outcomes[i]
    ensures Split(OutcomeText(outcomes), '\n') == OutcomeLines(outcomes)
    ensures forall i :: 0 <= i < |outcomes| ==> Split(OutcomeText(outcomes), '\n')[i][|BulletPrefix|..] == outcomes[i]
  {
    var lines := OutcomeLines(outcomes);
    forall i | 0 <= i < |lines|
      ensures '\n' !in lines[i]
    {
      assert forall c :: c in lines[i] ==> c in BulletPrefix || c in outcomes[i];
    }
    SplitJoin(lines, '\n');
  }

  // ---------------------------------------------------------------------
  // The lazy pattern `\[\s*{[\s\S]*?}\s*\]`

  /** `[`, the greedy `\s*` and `{` from position `i`: where that `{` is.
      `\s*` cannot give back characters, since `{` is not white space. */
  function ArrayOpenAt(s: string, i: nat): (b: Option<nat>)
    ensures b.Some? ==> i < b.value < |s| && s[i] == '[' && AllSpace(Js, s[i + 1..b.value]) && s[b.value] == '{'
  {
    if i < |s| && s[i] == '[' then
      var b := i + 1 + SpaceRun(Js, s, i + 1);
      if b < |s| && s[b] == '{' then Some(b) else None
    else None
  }

  /** `}`, the greedy `\s*` and `]` from position `e`: where the match ends. */
  function ArrayCloseAt(s: string, e: nat): (j: Option<nat>)
    ensures j.Some? ==> e + 2 <= j.value <= |s| && s[e] == '}' && AllSpace(Js, s[e + 1..j.value - 1]) && s[j.value - 1] == ']'
  {
    if e < |s| && s[e] == '}' then
      var c := e + 1 + SpaceRun(Js, s, e + 1);
      if c < |s| && s[c] == ']' then Some(c + 1) else None
    else None
  }

  /** The lazy `[\s\S]*?`: the first position from `q` on where the closing
      `}\s*]` can follow. */
  function LazyClose(s: string, q: nat): (e: Option<nat>)
    requires q <= |s|
    ensures e.Some? ==> q <= e.value < |s| && ArrayCloseAt(s, e.value).Some?
    ensures e.Some? ==> forall k :: q <= k < e.value ==> ArrayCloseAt(s, k).None?
    ensures e.None? ==> forall k :: q <= k < |s| ==> ArrayCloseAt(s, k).None?
    decreases |s| - q
  {
    if q == |s| then None
    else if ArrayCloseAt(s, q).Some? then Some(q)
    else LazyClose(s, q + 1)
  }

  /** Where a match starting at `i` ends, if the pattern matches there. */
  function ArrayMatchAt(s: string, i: nat): (j: Option<nat>)
    ensures j.Some? ==> i + 4 <= j.value <= |s| && s[i] == '[' && s[j.value - 1] == ']'
  {
    match ArrayOpenAt(s, i)
    case None => None
    case Some(b) =>
      match LazyClose(s, b + 1)
      case None => None
      case Some(e) => ArrayCloseAt(s, e)
  }

  /** `llmContent.match(...)` from position `i` on: the leftmost start where
      the pattern matches, with the end of that match. */
  function FindArray(s: string, i: nat): (r: Option<(nat, nat)>)
    ensures r.Some? ==> i <= r.value.0 && ArrayMatchAt(s, r.value.0) == Some(r.value.1)
    ensures r.Some? ==> forall k :: i <= k < r.value.0 ==> ArrayMatchAt(s, k).None?
    ensures r.None? ==> forall k :: i <= k < |s| ==> ArrayMatchAt(s, k).None?
    decreases |s| - i
  {
    if i >= |s| then None
    else match ArrayMatchAt(s, i)
      case Some(j) => Some((i, j))
      case None => FindArray(s, i + 1)
  }

  /** A white-space run stops at the first character that is not white space. */
  lemma {:induction false} SpaceRunStopsBefore(s: string, p: nat, q: nat)
    requires p <= q < |s| && !IsSpace(Js, s[q])
    ensures p + SpaceRun(Js, s, p) <= q
    decreases q - p
  {
    if p < q && IsSpace(Js, s[p]) {
      SpaceRunStopsBefore(s, p + 1, q);
    }
  }

  /** The array literal the pattern is written for. */
  function ArrayLiteral(w1: string, mid: string, w2: string): string {
    "[" + w1 + "{" + mid + "}" + w2 + "]"
  }

  lemma OpenExactly(s: string, a: nat, b: nat)
    requires a < b < |s| && s[a] == '[' && AllSpace(Js, s[a + 1..b]) && s[b] == '{'
    ensures ArrayOpenAt(s, a) == Some(b)
  {
    SpaceRunExact(Js, s, a + 1, b - a - 1);
  }

  lemma CloseExactly(s: string, e: nat, c: nat)
    requires e < c < |s| && s[e] == '}' && AllSpace(Js, s[e + 1..c]) && s[c] == ']'
    ensures ArrayCloseAt(s, e) == Some(c + 1)
  {
    SpaceRunExact(Js, s, e + 1, c - e - 1);
  }

  /** With no `]` between `b` and the `}` at `e`, no earlier `}` can close the array. */
  lemma NoEarlierClose(s: string, b: nat, e: nat)
    requires b < e < |s| && s[e] == '}'
    requires forall k :: b < k < e ==> s[k] != ']'
    ensures forall k :: b < k < e ==> ArrayCloseAt(s, k).None?
  {
    forall k | b < k < e
      ensures ArrayCloseAt(s, k).None?
    {
      if s[k] == '}' {
        SpaceRunStopsBefore(s, k + 1, e);
      }
    }
  }

  /** A match at `a` with no `[` before it is the leftmost one. */
  lemma LeftmostMatch(s: string, a: nat, j: nat)
    requires ArrayMatchAt(s, a) == Some(j)
    requires forall k :: 0 <= k < a ==> s[k] != '['
    ensures FindArray(s, 0) == Some((a, j))
  {
    forall k | 0 <= k < a
      ensures ArrayMatchAt(s, k).None?
    {
      assert s[k] != '[';
    }
  }

  /** The lazy close is the first position that can close. */
  lemma LazyCloseIs(s: string, q: nat, e: nat)
    requires q <= e < |s| && ArrayCloseAt(s, e).Some?
    requires forall k :: q <= k < e ==> ArrayCloseAt(s, k).None?
    ensures LazyClose(s, q) == Some(e)
  {
  }

  lemma MatchIs(s: string, a: nat, b: nat, e: nat, j: nat)
    requires ArrayOpenAt(s, a) == Some(b) && LazyClose(s, b + 1) == Some(e) && ArrayCloseAt(s, e) == Some(j)
    ensures ArrayMatchAt(s, a) == Some(j)
  {
    match ArrayOpenAt(s, a)
    case Some(b') =>
      assert b' == b;
      match LazyClose(s, b + 1)
      case Some(e') =>
        assert e' == e;
  }

  /** The pattern matches exactly from `a` to `c` when the characters sit where
      the literal puts them and no `[` comes before `a`. */
  lemma MatchAtPositions(s: string, a: nat, b: nat, e: nat, c: nat)
    requires a < b < e < c < |s|
    requires s[a] == '[' && AllSpace(Js, s[a + 1..b]) && s[b] == '{'
    requires forall k :: b < k < e ==> s[k] != ']'
    requires s[e] == '}' && AllSpace(Js, s[e + 1..c]) && s[c] == ']'
    requires forall k :: 0 <= k < a ==> s[k] != '['
    ensures FindArray(s, 0) == Some((a, c + 1))
  {
    OpenExactly(s, a, b);
    CloseExactly(s, e, c);
    NoEarlierClose(s, b, e);
    LazyCloseIs(s, b + 1, e);
    MatchIs(s, a, b, e, c + 1);
    LeftmostMatch(s, a, c + 1);
  }

  /** Where the pieces of `prefix + ArrayLiteral(w1, mid, w2) + suffix` sit. */
  lemma LiteralLayout(prefix: string, w1: string, mid: string, w2: string, suffix: string, s: string)
    requires s == prefix + ArrayLiteral(w1, mid, w2) + suffix
    ensures |ArrayLiteral(w1, mid, w2)| == |w1| + |mid| + |w2| + 4
    ensures |prefix| + |w1| + |mid| + |w2| + 3 < |s|
    ensures s[..|prefix|] == prefix
    ensures s[|prefix|] == '['
    ensures s[|prefix| + 1..|prefix| + 1 + |w1|] == w1
    ensures s[|prefix| + 1 + |w1|] == '{'
    ensures s[|prefix| + 2 + |w1|..|prefix| + 2 + |w1| + |mid|] == mid
    ensures s[|prefix| + 2 + |w1| + |mid|] == '}'
    ensures s[|prefix| + 3 + |w1| + |mid|..|prefix| + 3 + |w1| + |mid| + |w2|] == w2
    ensures s[|prefix| + 3 + |w1| + |mid| + |w2|] == ']'
  {
    assert s == prefix + "[" + w1 + "{" + mid + "}" + w2 + "]" + suffix;
  }

  /** No character of `piece` occurs where `piece` sits in `s`. */
  lemma Absent(s: string, i: nat, j: nat, piece: string, ch: char)
    requires i <= j <= |s| && s[i..j] == piece && ch !in piece
    ensures forall k :: i <= k < j ==> s[k] != ch
  {
    forall k | i <= k < j
      ensures s[k] != ch
    {
      assert s[k] == piece[k - i];
    }
  }

  /** A JSON array of objects with no `]` inside, with only white space
      between its brackets and braces, and preceded by prose with no `[`, is
      matched exactly, whatever follows it. */
  lemma ExtractRecoversArray(prefix: string, w1: string, mid: string, w2: string, suffix: string)
    requires '[' !in prefix && ']' !in mid
    requires AllSpace(Js, w1) && AllSpace(Js, w2)
    ensures FindArray(prefix + ArrayLiteral(w1, mid, w2) + suffix, 0) ==
      Some((|prefix|, |prefix| + |ArrayLiteral(w1, mid, w2)|))
  {
    var s := prefix + ArrayLiteral(w1, mid, w2) + suffix;
    var a := |prefix|;
    var b := a + 1 + |w1|;
    var e := b + 1 + |mid|;
    var c := e + 1 + |w2|;
    assert FindArray(s, 0) == Some((a, c + 1)) by {
      LiteralLayout(prefix, w1, mid, w2, suffix, s);
      Absent(s, 0, a, prefix, '[');
      Absent(s, b + 1, e, mid, ']');
      MatchAtPositions(s, a, b, e, c);
    }
    assert |ArrayLiteral(w1, mid, w2)| == c + 1 - a;
  }

  // ---------------------------------------------------------------------
  // The response

  /** The route's answers: 200 with a parsed value; 500 "Failed to parse
      extracted JSON array" and 500 "No valid JSON array found in LLM output",
      both with the trimmed content as `details`; and an unhandled exception
      when the request or the reading of its body threw (nothing catches it). */
  datatype ScoreOutcome = Scores(value: Json) | ExtractedParseFailed(details: string) | NoArrayFound(details: string) | Unhandled

  /** The trimmed content: `(data.choices?.[0]?.message?.content || '').trim()`. */
  function TrimmedContent(data: Completion): (r: string)
    ensures IsTrimmed(Js, r)
    ensures ContentOf(data) == "" ==> r == ""
    ensures var c := ContentOf(data); var n := LeadingSpaces(Js, c);
      && n + |r| <= |c| && r == c[n..n + |r|]
      && AllSpace(Js, c[..n]) && AllSpace(Js, c[n + |r|..])
  {
    Trim(Js, ContentOf(data))
  }

  /** The fallback: the first `[ {...} ]` span, parsed on its own. */
  function ParseExtracted(content: string, parse: string -> Option<Json>): (o: ScoreOutcome)
    ensures o != Unhandled
    ensures FindArray(content, 0).None? <==> o == NoArrayFound(content)
    ensures FindArray(content, 0).Some? ==>
      var span := FindArray(content, 0).value;
      && span.0 <= span.1 <= |content|
      && (parse(content[span.0..span.1]).Some? ==> o == Scores(parse(content[span.0..span.1]).value))
      && (parse(content[span.0..span.1]).None? ==> o == ExtractedParseFailed(content))
  {
    match FindArray(content, 0)
    case None => NoArrayFound(content)
    case Some(span) =>
      match parse(content[span.0..span.1])
      case Some(v) => Scores(v)
      case None => ExtractedParseFailed(content)
  }

  /** The route's decisions. A reply that parses whole is returned unchanged,
      whatever its shape; the extraction is tried only after that fails. */
  function Score(reply: Option<Completion>, parse: string -> Option<Json>): (o: ScoreOutcome)
    ensures reply.None? <==> o == Unhandled
    ensures reply.Some? && parse(TrimmedContent(reply.value)).Some? ==>
      o == Scores(parse(TrimmedContent(reply.value)).value)
    ensures reply.Some? && parse(TrimmedContent(reply.value)).None? ==>
      o == ParseExtracted(TrimmedContent(reply.value), parse)
  {
    match reply
    case None => Unhandled
    case Some(data) =>
      var content := TrimmedContent(data);
      match parse(content)
      case Some(v) => Scores(v)
      case None => ParseExtracted(content, parse)
  }

  /** A reply whose array is wrapped in prose that does not parse whole is
      answered with the array parsed on its own. */
  lemma WrappedArrayIsScored(data: Completion, parse: string -> Option<Json>,
                             prefix: string, w1: string, mid: string, w2: string, suffix: string)
    requires TrimmedContent(data) == prefix + ArrayLiteral(w1, mid, w2) + suffix
    requires '[' !in prefix && ']' !in mid && AllSpace(Js, w1) && AllSpace(Js, w2)
    requires parse(TrimmedContent(data)).None? && parse(ArrayLiteral(w1, mid, w2)).Some?
    ensures Score(Some(data), parse) == Scores(parse(ArrayLiteral(w1, mid, w2)).value)
  {
    var content := TrimmedContent(data);
    ExtractRecoversArray(prefix, w1, mid, w2, suffix);
    assert content[|prefix|..|prefix| + |ArrayLiteral(w1, mid, w2)|] == ArrayLiteral(w1, mid, w2);
  }
}
