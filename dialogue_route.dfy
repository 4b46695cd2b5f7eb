/** The dialogue route (src/app/api/generateSchoolResponseAndOptions/route.ts):
    it refuses to run without an API key, renders the IRP stance and the
    parent's history into the prompt, asks the completion service, cuts the
    first `{` ... last `}` span out of the reply and parses it. The service's
    reply and `JSON.parse` are parameters. */
module DialogueRoute {
  import opened Common
  import opened Strings

  // ---------------------------------------------------------------------
  // The API-key guard

  /** `!OPENAI_API_KEY`: the variable is unset or empty. */
  predicate KeyMissing(key: Option<string>) {
    key.None? || key.value == ""
  }

  // ---------------------------------------------------------------------
  // The IRP description

  /** `irpDescriptionMap`: one sentence per stance. */
  const IrpDescriptions: map<string, Prose> :=
    map["interests" := Prose(16), "rights" := Prose(17), "power" := Prose(18)]

  /** What `irpDescriptionMap[irpType] || ""` puts into the prompt as written:
      a description, the empty string, or, for a name Object.prototype
      provides, that inherited member (a function, rendered as its source
      text, or for `__proto__` the prototype object, rendered as "[object Object]"). */
  datatype Description = Text(text: Prose) | NoText | InheritedMember(name: string)

  /** The lookup as written; a missing `irpType` is looked up as the key `"undefined"`. */
  function IrpDescriptionAsWritten(irpType: Option<string>): (d: Description)
    ensures d.InheritedMember? <==> irpType.Some? && irpType.value in ObjectPrototypeKeys
  {
    match JsIndex(IrpDescriptions, if irpType.Some? then irpType.value else "undefined")
    case Own(p) => Text(p)
    case Inherited(name) => InheritedMember(name)
    case Undefined => NoText
  }

  /** The lookup with own keys only: one fixed, distinct description for each
      of `interests`, `rights` and `power`, and none for any other value. */
  function IrpDescription(irpType: Option<string>): (d: Option<Prose>)
    ensures d.Some? <==> irpType.Some? && irpType.value in {"interests", "rights", "power"}
    ensures irpType == Some("interests") ==> d == Some(Prose(16))
    ensures irpType == Some("rights") ==> d == Some(Prose(17))
    ensures irpType == Some("power") ==> d == Some(Prose(18))
  {
    if irpType.Some? && irpType.value in IrpDescriptions then Some(IrpDescriptions[irpType.value]) else None
  }

  /** An `irpType` of `toString` puts a function into the prompt as written,
      where the own-key lookup gives the empty description. */
  lemma InheritedDescription()
    ensures IrpDescriptionAsWritten(Some("toString")) == InheritedMember("toString")
    ensures IrpDescription(Some("toString")) == None
  {
  }

  /** Off the Object.prototype names the two lookups agree. */
  lemma DescriptionAgreesOffPrototype(irpType: Option<string>)
    requires irpType.None? || irpType.value !in ObjectPrototypeKeys
    ensures IrpDescriptionAsWritten(irpType) == (if IrpDescription(irpType).Some? then Text(IrpDescription(irpType).value) else NoText)
  {
  }

  // ---------------------------------------------------------------------
  // The parent history

  /** An entry of `parentHistory`, as the meeting page sends it. */
  datatype Turn = Turn(user: string, school: string, irpType: string)

  const ParentPrefix: string := "Parent: "

  /** One `Parent: <user>` line per entry, in order. */
  function HistoryLines(history: seq<Turn>): (lines: seq<string>)
    ensures |lines| == |history|
    ensures forall i :: 0 <= i < |history| ==> lines[i] == ParentPrefix + history[i].user
  {
    seq(|history|, i requires 0 <= i < |history| => ParentPrefix + history[i].user)
  }

  /** The history as rendered into the prompt: the lines joined by `\n`. */
  function HistoryText(history: seq<Turn>): string {
    Join(HistoryLines(history), "\n")
  }

  /** When no parent message contains a line break, splitting the rendered
      history on `\n` gives back one line per entry, and cutting the prefix
      off each line gives back the parent's words. */
  lemma HistoryRoundTrip(history: seq<Turn>)
    requires |history| >= 1
    requires forall i :: 0 <= i < |history| ==> '\n' !in history[i].user
    ensures Split(HistoryText(history), '\n') == HistoryLines(history)
    ensures forall i :: 0 <= i < |history| ==> Split(HistoryText(history), '\n')[i][|ParentPrefix|..] == history[i].user
  {
    var lines := HistoryLines(history);
    forall i | 0 <= i < |lines|
      ensures '\n' !in lines[i]
    {
      assert forall c :: c in lines[i] ==> c in ParentPrefix || c in history[i].user;
    }
    SplitJoin(lines, '\n');
  }

  /** The rendering reads only the `user` field of each entry. */
  lemma HistoryReadsOnlyUser(h1: seq<Turn>, h2: seq<Turn>)
    requires |h1| == |h2|
    requires forall i :: 0 <= i < |h1| ==> h1[i].user == h2[i].user
    ensures HistoryText(h1) == HistoryText(h2)
  {
    assert HistoryLines(h1) == HistoryLines(h2);
  }

  // ---------------------------------------------------------------------
  // The greedy `{...}` extraction

  /** The first position of `c` in `s`. */
  function FirstIndex(s: string, c: char): (r: Option<nat>)
    ensures r.Some? ==> r.value < |s| && s[r.value] == c
    ensures r.Some? ==> forall k :: 0 <= k < r.value ==> s[k] != c
    ensures r.None? ==> forall k :: 0 <= k < |s| ==> s[k] != c
  {
    if s == [] then None
    else if s[0] == c then Some(0)
    else match FirstIndex(s[1..], c)
      case None => None
      case Some(k) => Some(k + 1)
  }

  /** The last position of `c` in `s`. */
  function LastIndex(s: string, c: char): (r: Option<nat>)
    ensures r.Some? ==> r.value < |s| && s[r.value] == c
    ensures r.Some? ==> forall k :: r.value < k < |s| ==> s[k] != c
    ensures r.None? ==> forall k :: 0 <= k < |s| ==> s[k] != c
  {
    if s == [] then None
    else if s[|s| - 1] == c then Some(|s| - 1)
    else LastIndex(s[..|s| - 1], c)
  }

  /** `/\{[\s\S]*\}/` matches: some `{` comes before some `}`. */
  predicate HasBracedSpan(s: string) {
    exists i, j :: 0 <= i < j < |s| && s[i] == '{' && s[j] == '}'
  }

  lemma BracedSpanIff(s: string)
    ensures HasBracedSpan(s) <==>
      FirstIndex(s, '{').Some? && LastIndex(s, '}').Some? && FirstIndex(s, '{').value < LastIndex(s, '}').value
  {
    if HasBracedSpan(s) {
      var i, j :| 0 <= i < j < |s| && s[i] == '{' && s[j] == '}';
      assert FirstIndex(s, '{').Some? && FirstIndex(s, '{').value <= i;
      assert LastIndex(s, '}').Some? && j <= LastIndex(s, '}').value;
    }
  }

  /** `jsonString`: when the greedy pattern matches, the span from the first
      `{` to the last `}`; otherwise the whole content. */
  function ExtractObject(content: string): (r: string)
    ensures !HasBracedSpan(content) ==> r == content
    ensures HasBracedSpan(content) ==>
      && FirstIndex(content, '{').Some? && LastIndex(content, '}').Some?
      && r == content[FirstIndex(content, '{').value..LastIndex(content, '}').value + 1]
    ensures HasBracedSpan(content) ==> |r| >= 2 && r[0] == '{' && r[|r| - 1] == '}'
  {
    BracedSpanIff(content);
    var f := FirstIndex(content, '{');
    var l := LastIndex(content, '}');
    if f.Some? && l.Some? && f.value < l.value then content[f.value..l.value + 1] else content
  }

  /** Extracting again changes nothing. */
  lemma ExtractIdempotent(content: string)
    ensures ExtractObject(ExtractObject(content)) == ExtractObject(content)
  {
    var r := ExtractObject(content);
    if HasBracedSpan(content) {
      assert HasBracedSpan(r) by {
        assert 0 < |r| - 1 && r[0] == '{' && r[|r| - 1] == '}';
      }
      assert FirstIndex(r, '{') == Some(0);
      assert LastIndex(r, '}') == Some(|r| - 1);
      assert r[0..|r|] == r;
    }
  }

  /** An object wrapped in prose that has no `{` before it and no `}` after it
      is cut out exactly. */
  lemma ExtractRecoversWrapped(prefix: string, obj: string, suffix: string)
    requires '{' !in prefix && '}' !in suffix
    requires |obj| >= 2 && obj[0] == '{' && obj[|obj| - 1] == '}'
    ensures ExtractObject(prefix + obj + suffix) == obj
  {
    var s := prefix + obj + suffix;
    var a := |prefix|;
    var b := |prefix| + |obj| - 1;
    assert s[a] == '{' && s[b] == '}';
    assert HasBracedSpan(s);
    assert forall k :: 0 <= k < a ==> s[k] == prefix[k];
    assert forall k :: b < k < |s| ==> s[k] == suffix[k - b - 1];
    assert FirstIndex(s, '{') == Some(a);
    assert LastIndex(s, '}') == Some(b);
    assert s[a..b + 1] == obj;
  }

  // ---------------------------------------------------------------------
  // The response

  /** The route's answers: 500 "OpenAI API key not set"; 200 with the parsed
      value; 500 "Failed to parse LLM output" with the reply's content as
      `details`; 500 "Failed to generate response" when the request or the
      reading of its body threw. */
  datatype DialogueOutcome = KeyNotSet | Parsed(value: Json) | ParseFailed(details: string) | GenerateFailed

  function Status(o: DialogueOutcome): (code: int)
    ensures code == 200 <==> o.Parsed?
    ensures code == 200 || code == 500
  {
    if o.Parsed? then 200 else 500
  }

  /** The route's decisions. `reply` is the completion service's answer (None
      when `fetch` or `response.json()` threw); `parse` is `JSON.parse`, None
      where it throws. The parsed value is returned as it is, whatever its shape. */
  function Generate(key: Option<string>, reply: Option<Completion>, parse: string -> Option<Json>): (o: DialogueOutcome)
    ensures o == KeyNotSet <==> KeyMissing(key)
    ensures !KeyMissing(key) && reply.None? ==> o == GenerateFailed
    ensures !KeyMissing(key) && reply.Some? ==>
      var content := ContentOf(reply.value);
      && (o.Parsed? <==> parse(ExtractObject(content)).Some?)
      && (o.Parsed? ==> o.value == parse(ExtractObject(content)).value)
      && (!o.Parsed? ==> o == ParseFailed(content))
  {
    if KeyMissing(key) then KeyNotSet
    else match reply
      case None => GenerateFailed
      case Some(data) =>
        var content := ContentOf(data);
        match parse(ExtractObject(content))
        case Some(v) => Parsed(v)
        case None => ParseFailed(content)
  }

  /** Without a key the outcome does not depend on the service at all: no
      request is made. */
  lemma NoRequestWithoutKey(key: Option<string>, r1: Option<Completion>, r2: Option<Completion>, parse: string -> Option<Json>)
    requires KeyMissing(key)
    ensures Generate(key, r1, parse) == Generate(key, r2, parse) == KeyNotSet
  {
  }
}
