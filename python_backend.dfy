/** The Flask backend (backend_api/openai_backend.py): `safe_json_parse`,
    which retries a failed parse on the reply with code fences cut off, and
    the two completion endpoints, which screen the parsed value and fill in
    missing keys of its entries with `setdefault`. The completion service's
    reply and `json.loads` are parameters. */
module PythonBackend {
  import opened Common
  import opened Strings

  // ---------------------------------------------------------------------
  // safe_json_parse

  const JsonFence: string := "```json"
  const Fence: string := "```"

  /** How much the cleaning cuts from the front and from the back of the
      stripped text `t`: "```json" (7) and then "```" (3) from the front, each
      only when present, then "```" (3) from the back of what is left. */
  function Cuts(t: string): (r: (nat, nat))
    ensures r.0 in {0, 3, 7, 10} && r.1 in {0, 3}
    ensures r.0 + r.1 <= |t|
  {
    var front: nat := if StartsWith(t, JsonFence) then 7 else 0;
    var front': nat := if StartsWith(t[front..], Fence) then front + 3 else front;
    var back: nat := if EndsWith(t[front'..], Fence) then 3 else 0;
    (front', back)
  }

  /** The text the second attempt parses, from the stripped text `t`: the
      fences cut off, so one slice of `t`, at most ten characters shorter at
      the front and at most three at the back. */
  function Unfenced(t: string): (c: string)
    ensures Cuts(t).0 + |c| + Cuts(t).1 == |t|
    ensures c == t[Cuts(t).0..Cuts(t).0 + |c|]
    ensures |t| - 13 <= |c| <= |t|
  {
    var (front, back) := Cuts(t);
    t[front..|t| - back]
  }

  /** `safe_json_parse(text)`: the direct parse when it succeeds; otherwise
      the parse of `text.strip()` with the fences cut off, None when that
      fails too. */
  function SafeJsonParse(text: string, loads: string -> Option<Json>): (r: Option<Json>)
    ensures loads(text).Some? ==> r == loads(text)
    ensures loads(text).None? ==> r == loads(Unfenced(Trim(Py, text)))
  {
    match loads(text)
    case Some(v) => Some(v)
    case None => loads(Unfenced(Trim(Py, text)))
  }

  lemma CutsOfJsonFence(t: string)
    requires StartsWith(t, JsonFence) && !StartsWith(t[7..], Fence) && EndsWith(t[7..], Fence)
    ensures Cuts(t) == (7, 3)
  {
  }

  lemma CutsOfPlainFence(t: string)
    requires !StartsWith(t, JsonFence) && StartsWith(t, Fence) && EndsWith(t[3..], Fence)
    ensures Cuts(t) == (3, 3)
  {
    assert t[0..] == t;
  }

  /** "```json<body>```" is cut back to its body, when the body does not
      itself begin with a backtick. */
  lemma UnfencedJsonFence(body: string)
    requires body != [] && body[0] != '`'
    ensures Unfenced(JsonFence + body + Fence) == body
  {
    var w := JsonFence + body + Fence;
    assert w[..7] == JsonFence;
    var t1 := w[7..];
    assert t1 == body + Fence;
    assert t1[..3][0] == body[0];
    assert t1[|t1| - 3..] == Fence;
    CutsOfJsonFence(w);
    assert w[7..|w| - 3] == body;
  }

  /** "```<body>```" is cut back to its body, when the body begins with
      neither a backtick nor the `j` of "json". */
  lemma UnfencedPlainFence(body: string)
    requires body != [] && body[0] != '`' && body[0] != 'j'
    ensures Unfenced(Fence + body + Fence) == body
  {
    var w := Fence + body + Fence;
    assert w[..7][3] == body[0];
    assert w[..3] == Fence;
    var t1 := w[3..];
    assert t1 == body + Fence;
    assert t1[|t1| - 3..] == Fence;
    CutsOfPlainFence(w);
    assert w[3..|w| - 3] == body;
  }

  /** Text with no backtick at either end is left as it is. */
  lemma UnfencedPlain(t: string)
    requires t == [] || (t[0] != '`' && t[|t| - 1] != '`')
    ensures Unfenced(t) == t
  {
    if |t| >= 7 {
      assert t[..7][0] == t[0];
    }
    if |t| >= 3 {
      assert t[..3][0] == t[0];
      assert t[|t| - 3..][2] == t[|t| - 1];
    }
    assert Cuts(t) == (0, 0);
  }

  /** A reply fenced as "```json<body>```" that does not parse whole is
      parsed from its body. */
  lemma FencedReplyParses(body: string, loads: string -> Option<Json>)
    requires body != [] && body[0] != '`'
    requires loads(JsonFence + body + Fence).None?
    ensures SafeJsonParse(JsonFence + body + Fence, loads) == loads(body)
  {
    var w := JsonFence + body + Fence;
    assert IsTrimmed(Py, w) by {
      assert w[0] == '`' && w[|w| - 1] == '`';
    }
    UnfencedJsonFence(body);
  }

  // ---------------------------------------------------------------------
  // setdefault

  /** `d.setdefault(k, v)` on a dict. */
  function SetDefault(d: map<string, Json>, k: string, v: Json): (r: map<string, Json>)
    ensures r.Keys == d.Keys + {k}
    ensures forall key :: key in d ==> r[key] == d[key]
    ensures k !in d ==> r[k] == v
  {
    if k in d then d else d[k := v]
  }

  /** The keys of a list of defaults. */
  function DefaultKeys(defaults: seq<(string, Json)>): (ks: set<string>)
    ensures forall i :: 0 <= i < |defaults| ==> defaults[i].0 in ks
    ensures forall k :: k in ks ==> exists i :: 0 <= i < |defaults| && defaults[i].0 == k
  {
    set i | 0 <= i < |defaults| :: defaults[i].0
  }

  /** The `setdefault` calls of the loop body, in order. */
  function WithDefaults(d: map<string, Json>, defaults: seq<(string, Json)>): map<string, Json>
  {
    if defaults == [] then d
    else
      var last := defaults[|defaults| - 1];
      SetDefault(WithDefaults(d, defaults[..|defaults| - 1]), last.0, last.1)
  }

  lemma DefaultKeysSnoc(init: seq<(string, Json)>, last: (string, Json))
    ensures DefaultKeys(init + [last]) == DefaultKeys(init) + {last.0}
  {
    var defaults := init + [last];
    forall k
      ensures k in DefaultKeys(defaults) <==> k in DefaultKeys(init) + {last.0}
    {
      if k in DefaultKeys(defaults) {
        var i :| 0 <= i < |defaults| && defaults[i].0 == k;
        if i < |init| {
          assert init[i] == defaults[i];
        }
      }
      if k in DefaultKeys(init) {
        var i :| 0 <= i < |init| && init[i].0 == k;
        assert defaults[i] == init[i];
      }
    }
  }

  /** The loop body adds the default keys and no other. */
  lemma {:induction false} WithDefaultsKeys(d: map<string, Json>, defaults: seq<(string, Json)>)
    ensures WithDefaults(d, defaults).Keys == d.Keys + DefaultKeys(defaults)
  {
    if defaults != [] {
      var init := defaults[..|defaults| - 1];
      var last := defaults[|defaults| - 1];
      WithDefaultsKeys(d, init);
      assert defaults == init + [last];
      DefaultKeysSnoc(init, last);
    }
  }

  /** Every key present keeps its value. */
  lemma {:induction false} WithDefaultsKeeps(d: map<string, Json>, defaults: seq<(string, Json)>)
    ensures forall k :: k in d ==> k in WithDefaults(d, defaults) && WithDefaults(d, defaults)[k] == d[k]
  {
    if defaults != [] {
      WithDefaultsKeeps(d, defaults[..|defaults| - 1]);
    }
  }

  /** A missing default key gets the value of its first default. */
  lemma {:induction false} WithDefaultsFills(d: map<string, Json>, defaults: seq<(string, Json)>, i: nat)
    requires i < |defaults| && defaults[i].0 !in d
    requires forall j :: 0 <= j < i ==> defaults[j].0 != defaults[i].0
    ensures defaults[i].0 in WithDefaults(d, defaults)
    ensures WithDefaults(d, defaults)[defaults[i].0] == defaults[i].1
  {
    var init := defaults[..|defaults| - 1];
    var last := defaults[|defaults| - 1];
    if i < |init| {
      assert init[i] == defaults[i];
      WithDefaultsFills(d, init, i);
    } else {
      WithDefaultsKeys(d, init);
      assert defaults[i].0 !in DefaultKeys(init);
    }
  }

  /** The loop body adds exactly the default keys that are missing: every
      key present keeps its value, every missing default key gets its first
      default value, and no other key appears. */
  lemma WithDefaultsSpec(d: map<string, Json>, defaults: seq<(string, Json)>)
    ensures WithDefaults(d, defaults).Keys == d.Keys + DefaultKeys(defaults)
    ensures forall k :: k in d ==> WithDefaults(d, defaults)[k] == d[k]
    ensures forall i :: 0 <= i < |defaults| && defaults[i].0 !in d && (forall j :: 0 <= j < i ==> defaults[j].0 != defaults[i].0) ==>
      WithDefaults(d, defaults)[defaults[i].0] == defaults[i].1
  {
    WithDefaultsKeys(d, defaults);
    WithDefaultsKeeps(d, defaults);
    forall i | 0 <= i < |defaults| && defaults[i].0 !in d && (forall j :: 0 <= j < i ==> defaults[j].0 != defaults[i].0)
      ensures WithDefaults(d, defaults)[defaults[i].0] == defaults[i].1
    {
      WithDefaultsFills(d, defaults, i);
    }
  }

  /** Running the loop body twice adds nothing more. */
  lemma {:induction false} WithDefaultsIdempotent(d: map<string, Json>, defaults: seq<(string, Json)>)
    ensures WithDefaults(WithDefaults(d, defaults), defaults) == WithDefaults(d, defaults)
  {
    var r := WithDefaults(d, defaults);
    WithDefaultsSpec(d, defaults);
    WithDefaultsSpec(r, defaults);
    assert WithDefaults(r, defaults).Keys == r.Keys;
  }

  /** A dict that already holds every default key is left as it is. */
  lemma WithDefaultsComplete(d: map<string, Json>, defaults: seq<(string, Json)>)
    requires DefaultKeys(defaults) <= d.Keys
    ensures WithDefaults(d, defaults) == d
  {
    WithDefaultsSpec(d, defaults);
  }

  /** The defaults of the dialogue endpoint's options. */
  const OptionDefaults: seq<(string, Json)> :=
    [("type", JString("")), ("text", JString("")), ("textExplanation", JString(""))]

  /** The defaults of the scoring endpoint's entries. */
  const ScoreDefaults: seq<(string, Json)> :=
    [("outcome", JString("")), ("score", JNumber(0.0)), ("explanation", JString(""))]

  /** Every entry of the list is a dict. */
  predicate AllDicts(items: seq<Json>) {
    forall i :: 0 <= i < |items| ==> items[i].JObject?
  }

  /** Each dict of the list with the defaults filled in. */
  function Normalised(items: seq<Json>, defaults: seq<(string, Json)>): (r: seq<Json>)
    requires AllDicts(items)
    ensures |r| == |items|
    ensures forall i :: 0 <= i < |items| ==> r[i] == JObject(WithDefaults(items[i].fields, defaults))
  {
    seq(|items|, i requires 0 <= i < |items| => JObject(WithDefaults(items[i].fields, defaults)))
  }

  /** `for o in items: o.setdefault(...)`, entry by entry. The first entry
      that is not a dict makes `setdefault` raise; None stands for that
      exception. Otherwise every entry has the defaults filled in, the list
      keeps its length, and each entry keeps every value it had. */
  method NormaliseEach(items: seq<Json>, defaults: seq<(string, Json)>) returns (r: Option<seq<Json>>)
    ensures r.Some? <==> AllDicts(items)
    ensures r.Some? ==> r.value == Normalised(items, defaults)
  {
    var current := items;
    var i := 0;
    while i < |current|
      invariant 0 <= i <= |current| == |items|
      invariant forall k :: 0 <= k < i ==> items[k].JObject? && current[k] == JObject(WithDefaults(items[k].fields, defaults))
      invariant current[i..] == items[i..]
      decreases |current| - i
    {
      if !current[i].JObject? {
        assert items[i] == current[i..][0];
        return None;
      }
      current := current[i := JObject(WithDefaults(current[i].fields, defaults))];
      i := i + 1;
    }
    return Some(current);
  }

  /** Normalised entries keep their count and every value they had, and
      carry every default key. */
  lemma NormalisedKeeps(items: seq<Json>, defaults: seq<(string, Json)>)
    requires AllDicts(items)
    ensures |Normalised(items, defaults)| == |items|
    ensures forall i, k :: 0 <= i < |items| && k in items[i].fields ==>
      k in Normalised(items, defaults)[i].fields && Normalised(items, defaults)[i].fields[k] == items[i].fields[k]
    ensures forall i :: 0 <= i < |items| ==> DefaultKeys(defaults) <= Normalised(items, defaults)[i].fields.Keys
  {
    forall i | 0 <= i < |items|
      ensures items[i].fields.Keys + DefaultKeys(defaults) == Normalised(items, defaults)[i].fields.Keys
      ensures forall k :: k in items[i].fields ==> Normalised(items, defaults)[i].fields[k] == items[i].fields[k]
    {
      WithDefaultsSpec(items[i].fields, defaults);
    }
  }

  // ---------------------------------------------------------------------
  // The endpoints

  /** The endpoints' answers: 200 with a value; 500 "Malformed OpenAI
      response" with the raw reply text; 500 with the text of an exception
      raised anywhere in the `try`. */
  datatype BackendOutcome = Ok(value: Json) | Malformed(raw: string) | Failed

  function Status(o: BackendOutcome): (code: int)
    ensures code == 200 <==> o.Ok?
    ensures code == 200 || code == 500
  {
    if o.Ok? then 200 else 500
  }

  /** Python truthiness of a parsed value: None, False, zero and empty
      strings, lists and dicts are falsy. */
  predicate Truthy(v: Json) {
    match v
    case JNull => false
    case JBool(b) => b
    case JNumber(n) => n != 0.0
    case JString(s) => s != []
    case JArray(xs) => xs != []
    case JObject(m) => m != map[]
  }

  /** `key in v`: a key of a dict, an element of a list, a substring of a
      string; on a number or a boolean `in` raises (None). */
  function PyIn(key: string, v: Json): (r: Option<bool>)
    ensures r.None? <==> v.JNull? || v.JBool? || v.JNumber?
    ensures v.JObject? ==> r == Some(key in v.fields)
  {
    match v
    case JObject(m) => Some(key in m)
    case JArray(xs) => Some(JString(key) in xs)
    case JString(s) => Some(Contains(s, key))
    case _ => None
  }

  /** The screening `if not result or "schoolResponse" not in result or
      "options" not in result`, which evaluates left to right and stops at
      the first true test. */
  datatype Screening = Rejected | Raised | Passed

  function Screen(result: Option<Json>): (s: Screening)
    ensures result.None? ==> s == Rejected
    ensures result.Some? && result.value.JObject? ==>
      (s == Passed <==> "schoolResponse" in result.value.fields && "options" in result.value.fields)
    ensures s == Passed ==> result.Some? && Truthy(result.value)
  {
    if result.None? || !Truthy(result.value) then Rejected
    else match PyIn("schoolResponse", result.value)
      case None => Raised
      case Some(false) => Rejected
      case Some(true) =>
        match PyIn("options", result.value)
        case None => Raised
        case Some(false) => Rejected
        case Some(true) => Passed
  }

  /** `for opt in options` over a value that is not a list: an empty dict or
      an empty string gives no entries; a non-empty dict or string gives
      strings, on which `setdefault` raises; anything else is not iterable. */
  predicate IteratesEmpty(v: Json) {
    v == JObject(map[]) || v == JString("")
  }

  /** `generate_school_response_and_options`. `reply` is the completion
      service's `choices[0].message.content`: None when the request or the
      indexing raised, Some(None) when the content is null (then `strip`
      raises inside `safe_json_parse`). */
  method GenerateSchoolResponseAndOptions(reply: Option<Option<string>>, loads: string -> Option<Json>)
    returns (o: BackendOutcome)
    ensures reply.None? || reply.value.None? ==> o == Failed
    ensures o.Malformed? ==> reply.Some? && reply.value.Some? && o == Malformed(reply.value.value)
    ensures reply.Some? && reply.value.Some? ==>
      var text := reply.value.value;
      var result := SafeJsonParse(text, loads);
      && (Screen(result) == Rejected <==> o == Malformed(text))
      && (Screen(result) == Raised ==> o == Failed)
      && (o.Ok? ==> Screen(result) == Passed && result.value.JObject?)
      && (Screen(result) == Passed && result.value.JObject? ==>
            var fields := result.value.fields;
            var options := fields["options"];
            && (options.JArray? ==>
                  && (o.Ok? <==> AllDicts(options.items))
                  && (o.Ok? ==> o.value == JObject(fields["options" := JArray(Normalised(options.items, OptionDefaults))])))
            && (!options.JArray? ==> (o.Ok? <==> IteratesEmpty(options)) && (o.Ok? ==> o.value == result.value)))
  {
    if reply.None? || reply.value.None? {
      return Failed;
    }
    var text := reply.value.value;
    var result := SafeJsonParse(text, loads);
    match Screen(result)
    case Rejected =>
      return Malformed(text);
    case Raised =>
      return Failed;
    case Passed =>
      match result.value
      case JObject(fields) =>
        var options := fields["options"];
        if options.JArray? {
          var normalised := NormaliseEach(options.items, OptionDefaults);
          if normalised.None? {
            return Failed;
          }
          return Ok(JObject(fields["options" := JArray(normalised.value)]));
        } else if IteratesEmpty(options) {
          return Ok(result.value);
        } else {
          return Failed;
        }
      case _ =>
        return Failed;
  }

  /** `score_outcomes`: anything but a list is malformed, and an empty list
      is returned as it is. */
  method ScoreOutcomes(reply: Option<Option<string>>, loads: string -> Option<Json>)
    returns (o: BackendOutcome)
    ensures reply.None? || reply.value.None? ==> o == Failed
    ensures o.Malformed? ==> reply.Some? && reply.value.Some? && o == Malformed(reply.value.value)
    ensures reply.Some? && reply.value.Some? ==>
      var text := reply.value.value;
      var scores := SafeJsonParse(text, loads);
      && (o == Malformed(text) <==> scores.None? || !scores.value.JArray?)
      && (scores.Some? && scores.value.JArray? ==>
            && (o.Ok? <==> AllDicts(scores.value.items))
            && (o.Ok? ==> o.value == JArray(Normalised(scores.value.items, ScoreDefaults))))
    ensures reply.Some? && reply.value.Some? && SafeJsonParse(reply.value.value, loads) == Some(JArray([])) ==>
      o == Ok(JArray([]))
  {
    if reply.None? || reply.value.None? {
      return Failed;
    }
    var text := reply.value.value;
    var scores := SafeJsonParse(text, loads);
    if scores.None? || !scores.value.JArray? {
      return Malformed(text);
    }
    var normalised := NormaliseEach(scores.value.items, ScoreDefaults);
    if normalised.None? {
      return Failed;
    }
    return Ok(JArray(normalised.value));
  }
}
