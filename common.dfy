/** Values shared by every part of the model: optional values, JSON values and
    the stand-in for prose literals. */
module Common {

  datatype Option<+T> = None | Some(value: T)

  /** A prose string literal of the source (a question, a feedback text, an
      outcome description...), named by the line of the source file it is
      written on. No property of the model depends on what the prose says. */
  datatype Prose = Prose(line: nat)

  /** How hard a scenario is rated: `'Easy' | 'Moderate' | 'Advanced'`. */
  datatype Difficulty = Easy | Moderate | Advanced

  /** A JSON value, as `JSON.parse` and Python's `json.loads` produce it. */
  datatype Json =
    | JNull
    | JBool(b: bool)
    | JNumber(n: real)
    | JString(s: string)
    | JArray(items: seq<Json>)
    | JObject(fields: map<string, Json>)

  /** The names every plain JavaScript object inherits from Object.prototype.
      Indexing an object literal `o[k]` with one of them yields a function (or,
      for `__proto__`, the prototype object itself): a truthy value, not
      `undefined`. */
  const ObjectPrototypeKeys: set<string> :=
    { "constructor", "__defineGetter__", "__defineSetter__", "hasOwnProperty",
      "__lookupGetter__", "__lookupSetter__", "isPrototypeOf",
      "propertyIsEnumerable", "toString", "valueOf", "__proto__", "toLocaleString" }

  /** What `o[k]` reads on a JavaScript object literal whose own keys are those of `own`. */
  datatype JsLookup<+T> = Own(value: T) | Inherited(name: string) | Undefined

  function JsIndex<T>(own: map<string, T>, k: string): (r: JsLookup<T>)
    ensures r.Own? <==> k in own
    ensures r.Inherited? <==> k !in own && k in ObjectPrototypeKeys
    ensures r.Own? ==> r.value == own[k]
  {
    if k in own then Own(own[k])
    else if k in ObjectPrototypeKeys then Inherited(k)
    else Undefined
  }

  /** The object a record literal `{k0: v0, k1: v1, ...}` builds from its
      entries: every key is present, and a key written twice keeps its last value. */
  function RecordOf<T>(entries: seq<(string, T)>): (m: map<string, T>)
    ensures forall i :: 0 <= i < |entries| ==> entries[i].0 in m
  {
    if entries == [] then map[]
    else
      var last := entries[|entries| - 1];
      RecordOf(entries[..|entries| - 1])[last.0 := last.1]
  }

  /** Every value the record holds was written in one of its entries under that key. */
  lemma {:induction false} RecordLookup<T>(entries: seq<(string, T)>, k: string)
    requires k in RecordOf(entries)
    ensures exists i :: 0 <= i < |entries| && entries[i].0 == k && RecordOf(entries)[k] == entries[i].1
  {
    var last := entries[|entries| - 1];
    if last.0 != k {
      var init := entries[..|entries| - 1];
      RecordLookup(init, k);
      var i :| 0 <= i < |init| && init[i].0 == k && RecordOf(init)[k] == init[i].1;
      assert entries[i] == init[i];
    }
  }

  /** A key written twice keeps its last value: an entry that no later entry
      overwrites is what the record holds under its key. */
  lemma {:induction false} RecordLastWins<T>(entries: seq<(string, T)>, i: nat)
    requires i < |entries|
    requires forall j :: i < j < |entries| ==> entries[j].0 != entries[i].0
    ensures RecordOf(entries)[entries[i].0] == entries[i].1
    decreases |entries|
  {
    if i < |entries| - 1 {
      var init := entries[..|entries| - 1];
      assert init[i] == entries[i];
      RecordLastWins(init, i);
    }
  }

  predicate DistinctKeys<T>(entries: seq<(string, T)>) {
    forall i, j :: 0 <= i < j < |entries| ==> entries[i].0 != entries[j].0
  }

  /** A record literal whose keys are all different holds one value per entry. */
  lemma {:induction false} RecordSize<T>(entries: seq<(string, T)>)
    requires DistinctKeys(entries)
    ensures |RecordOf(entries)| == |entries|
  {
    if entries != [] {
      var init := entries[..|entries| - 1];
      var last := entries[|entries| - 1];
      assert DistinctKeys(init);
      RecordSize(init);
      assert last.0 !in RecordOf(init) by {
        if last.0 in RecordOf(init) {
          RecordLookup(init, last.0);
        }
      }
    }
  }

  /** The members of a chat-completion reply the routes read; an absent member is None. */
  datatype Completion = Completion(choices: Option<seq<Choice>>)
  datatype Choice = Choice(message: Option<Message>)
  datatype Message = Message(content: Option<string>)

  /** `data.choices?.[0]?.message?.content || ''`: the first choice's message
      content, or the empty string when any link of the chain is missing. */
  function ContentOf(data: Completion): (r: string)
    ensures r != "" <==>
      && data.choices.Some? && |data.choices.value| > 0
      && data.choices.value[0].message.Some? && data.choices.value[0].message.value.content.Some?
      && data.choices.value[0].message.value.content.value != ""
    ensures r != "" ==> r == data.choices.value[0].message.value.content.value
  {
    match data.choices
    case None => ""
    case Some(cs) =>
      if |cs| == 0 then ""
      else match cs[0].message
        case None => ""
        case Some(m) => if m.content.Some? then m.content.value else ""
  }
}
