/** `configureLlm`: the .env file is read as `KEY=VALUE` lines into an
    insertion-ordered map, the OpenRouter key and the model name are set,
    and the map is written back as `key=value` lines. The file system is
    left out: the handler receives the file's content (None when there is
    no file) and returns the content it would write. */
module ConfigureLlm {
  import opened JsLib

  /** One `Map` entry. */
  datatype Entry = Entry(key: string, value: string)

  /** `req.body`: each field may be absent. */
  datatype ConfigRequest = ConfigRequest(apiKey: Option<string>, model: Option<string>)

  /** The response: 400 with an error, or the content written to .env
      together with the success message. */
  datatype Outcome =
    | BadRequest(error: string)
    | Written(content: string, message: string)

  const MissingFields: string := "apiKey and model are required"
  const Updated: string := "LLM configuration updated successfully."
  const ApiKeyName: string := "OPENROUTER_API_KEY"
  const ModelName: string := "MODEL_NAME"
  /** What `${value}` gives for a line without "=". */
  const Undefined: string := "undefined"

  /** A string field is truthy when it is present and not empty. */
  predicate Truthy(v: Option<string>) {
    v.Some? && v.value != ""
  }

  // ---------------------------------------------------------------------------
  // Parsing

  /** `.filter(Boolean)` on strings: the non-empty ones, in order. */
  function NonEmpty(xs: seq<string>): seq<string> {
    Filter(xs, (x: string) => x != "")
  }

  /** `line.split("=")` read as a `[key, value]` pair: the first two pieces,
      the value `undefined` when there is no second piece. */
  function ParseLine(line: string): Entry {
    var pieces := SplitOn(line, "=");
    Entry(pieces[0], if |pieces| >= 2 then pieces[1] else Undefined)
  }

  /** `envContent.split("\n").filter(Boolean).map(line => line.split("="))`. */
  function ParseEnv(content: string): seq<Entry> {
    var lines := NonEmpty(SplitOn(content, "\n"));
    seq(|lines|, i requires 0 <= i < |lines| => ParseLine(lines[i]))
  }

  // ---------------------------------------------------------------------------
  // The insertion-ordered map

  function Keys(m: seq<Entry>): seq<string> {
    seq(|m|, i requires 0 <= i < |m| => m[i].key)
  }

  /** No key occurs twice, as in a `Map`. */
  predicate UniqueKeys(m: seq<Entry>) {
    forall i, j :: 0 <= i < j < |m| ==> m[i].key != m[j].key
  }

  /** Where `key` sits in the map, None when it is absent. */
  function KeyIndex(m: seq<Entry>, key: string): (r: Option<nat>)
    ensures r.Some? ==> r.value < |m| && m[r.value].key == key
    ensures r.Some? ==> forall j :: 0 <= j < r.value ==> m[j].key != key
    ensures r.None? <==> key !in Keys(m)
  {
    if m == [] then None
    else if m[0].key == key then assert Keys(m)[0] == key; Some(0)
    else
      match KeyIndex(m[1..], key)
      case None => assert Keys(m) == [m[0].key] + Keys(m[1..]); None
      case Some(i) =>
        assert Keys(m)[i + 1] == key;
        assert forall j :: 1 <= j <= i ==> m[j] == m[1..][j - 1];
        Some(i + 1)
  }

  /** `map.set(key, value)`: an existing key keeps its place and takes the
      new value; a new key goes last. */
  function SetEntry(m: seq<Entry>, key: string, value: string): seq<Entry> {
    match KeyIndex(m, key)
    case Some(i) => m[i := Entry(key, value)]
    case None => m + [Entry(key, value)]
  }

  /** `new Map(entries)`: the entries set one after the other. */
  function FromEntries(es: seq<Entry>): seq<Entry> {
    if es == [] then []
    else
      var last := es[|es| - 1];
      SetEntry(FromEntries(es[..|es| - 1]), last.key, last.value)
  }

  /** The value stored under `key`, None when it is absent. */
  function Lookup(m: seq<Entry>, key: string): Option<string> {
    match KeyIndex(m, key)
    case Some(i) => Some(m[i].value)
    case None => None
  }

  /** The `.env` map, updated in place by `set`. */
  class EnvMap {
    var entries: seq<Entry>

    ghost predicate Valid()
      reads this
    {
      UniqueKeys(entries)
    }

    /** `new Map(pairs)`. */
    constructor (pairs: seq<Entry>)
      ensures Valid() && entries == FromEntries(pairs)
    {
      entries := [];
      new;
      for n := 0 to |pairs|
        invariant Valid() && entries == FromEntries(pairs[..n])
      {
        Set(pairs[n].key, pairs[n].value);
        assert pairs[..n + 1][..n] == pairs[..n];
      }
      assert pairs[..|pairs|] == pairs;
    }

    /** `map.set(key, value)`. */
    method Set(key: string, value: string)
      requires Valid()
      modifies this
      ensures Valid() && entries == SetEntry(old(entries), key, value)
    {
      SetKeepsUnique(entries, key, value);
      var i := 0;
      while i < |entries| && entries[i].key != key
        invariant i <= |entries|
        invariant forall j :: 0 <= j < i ==> entries[j].key != key
      {
        i := i + 1;
      }
      if i < |entries| {
        UniqueIndex(entries, key, i);
        entries := entries[i := Entry(key, value)];
      } else {
        assert key !in Keys(entries);
        entries := entries + [Entry(key, value)];
      }
    }
  }

  // ---------------------------------------------------------------------------
  // Serialising

  /** `([key, value]) => `${key}=${value}``, entry by entry. */
  function Render(m: seq<Entry>): seq<string> {
    seq(|m|, i requires 0 <= i < |m| => m[i].key + "=" + m[i].value)
  }

  /** The text written to .env: the lines joined by "\n", plus a final "\n". */
  function Serialize(m: seq<Entry>): string {
    Join(Render(m), "\n") + "\n"
  }

  /** The map the handler writes: the file's entries, then the two keys set. */
  function Merged(content: string, apiKey: string, model: string): seq<Entry> {
    SetEntry(SetEntry(FromEntries(ParseEnv(content)), ApiKeyName, apiKey), ModelName, model)
  }

  /** What `configureLlm` answers and writes, given the .env file's content
      (None when there is no file). */
  function Configure(req: ConfigRequest, envFile: Option<string>): Outcome {
    if !Truthy(req.apiKey) || !Truthy(req.model) then BadRequest(MissingFields)
    else
      var content := if envFile.Some? then envFile.value else "";
      Written(Serialize(Merged(content, req.apiKey.value, req.model.value)), Updated)
  }

  /** The handler, step by step. */
  method ConfigureLlmHandler(req: ConfigRequest, envFile: Option<string>) returns (outcome: Outcome)
    ensures outcome == Configure(req, envFile)
  {
    if !Truthy(req.apiKey) || !Truthy(req.model) {
      return BadRequest(MissingFields);
    }
    var envContent := "";
    if envFile.Some? {
      envContent := envFile.value;
    }
    var envMap := new EnvMap(ParseEnv(envContent));
    envMap.Set(ApiKeyName, req.apiKey.value);
    envMap.Set(ModelName, req.model.value);
    return Written(Serialize(envMap.entries), Updated);
  }

  // ---------------------------------------------------------------------------
  // Properties of the map

  lemma UniqueIndex(m: seq<Entry>, key: string, i: nat)
    requires i < |m| && m[i].key == key && forall j :: 0 <= j < i ==> m[j].key != key
    ensures KeyIndex(m, key) == Some(i)
  {
    assert Keys(m)[i] == key;
  }

  lemma SetKeepsUnique(m: seq<Entry>, key: string, value: string)
    requires UniqueKeys(m)
    ensures UniqueKeys(SetEntry(m, key, value))
  {
    if KeyIndex(m, key).None? {
      forall i | 0 <= i < |m| ensures m[i].key != key {
        assert m[i].key == Keys(m)[i];
      }
    }
  }

  /** `set` keeps every key where it was and adds a new key at the end; the
      key then holds the new value and every other key keeps its own. */
  lemma SetEntrySpec(m: seq<Entry>, key: string, value: string)
    requires UniqueKeys(m)
    ensures var m' := SetEntry(m, key, value);
      && UniqueKeys(m')
      && Keys(m') == (if key in Keys(m) then Keys(m) else Keys(m) + [key])
      && Lookup(m', key) == Some(value)
      && forall k :: k != key ==> Lookup(m', k) == Lookup(m, k)
  {
    var m' := SetEntry(m, key, value);
    SetKeepsUnique(m, key, value);
    match KeyIndex(m, key)
    case Some(i) =>
      assert Keys(m') == Keys(m);
      UniqueIndex(m', key, i);
      forall k | k != key ensures Lookup(m', k) == Lookup(m, k) {
        LookupAt(m, m', k);
      }
    case None =>
      assert Keys(m') == Keys(m) + [key];
      assert key !in Keys(m);
      forall j | 0 <= j < |m| ensures m'[j].key != key {
        assert m[j].key == Keys(m)[j];
      }
      UniqueIndex(m', key, |m|);
      forall k | k != key ensures Lookup(m', k) == Lookup(m, k) {
        LookupAt(m, m', k);
      }
  }

  /** Two maps that agree on every entry except those holding `key'` agree
      on the lookup of any other key. */
  lemma LookupAt(m: seq<Entry>, m': seq<Entry>, k: string)
    requires |m| <= |m'|
    requires forall j :: 0 <= j < |m| ==> m'[j].key == m[j].key && (m[j].key == k ==> m'[j] == m[j])
    requires forall j :: |m| <= j < |m'| ==> m'[j].key != k
    ensures Lookup(m', k) == Lookup(m, k)
  {
    match KeyIndex(m, k)
    case Some(i) =>
      UniqueIndex(m', k, i);
    case None =>
      forall j | 0 <= j < |m'| ensures m'[j].key != k {
        if j < |m| { assert m[j].key == Keys(m)[j]; }
      }
      assert k !in Keys(m');
  }

  /** `new Map(entries)` keeps each key once, at its first appearance, in the
      order the lines came. */
  lemma {:induction false} FromEntriesKeys(es: seq<Entry>)
    ensures UniqueKeys(FromEntries(es))
    ensures Keys(FromEntries(es)) == Distinct(Keys(es))
  {
    if es != [] {
      var n := |es| - 1;
      var pre := es[..n];
      FromEntriesKeys(pre);
      SetEntrySpec(FromEntries(pre), es[n].key, es[n].value);
      assert Keys(es)[..n] == Keys(pre);
    }
  }

  /** A map whose keys are already distinct is its own `new Map(entries)`. */
  lemma {:induction false} FromEntriesUnique(m: seq<Entry>)
    requires UniqueKeys(m)
    ensures FromEntries(m) == m
  {
    if m != [] {
      var n := |m| - 1;
      FromEntriesUnique(m[..n]);
      assert m[n].key !in Keys(m[..n]) by {
        forall j | 0 <= j < n ensures Keys(m[..n])[j] != m[n].key {}
      }
      assert m[..n] + [m[n]] == m;
    }
  }

  // ---------------------------------------------------------------------------
  // Properties of the handler

  /** The handler writes exactly when both fields are truthy, and otherwise
      answers 400 with its error and writes nothing. */
  lemma RejectsMissingFields(req: ConfigRequest, envFile: Option<string>)
    ensures Configure(req, envFile).Written? <==> Truthy(req.apiKey) && Truthy(req.model)
    ensures Configure(req, envFile).BadRequest? ==> Configure(req, envFile).error == MissingFields
    ensures Configure(req, envFile).Written? ==> Configure(req, envFile).message == Updated
  {
  }

  /** The written map keeps the file's keys, each once, in their order, with
      OPENROUTER_API_KEY and then MODEL_NAME after them when they are new;
      the two keys hold the request's values and every other key the value
      from its last line in the file. */
  lemma MergedKeys(content: string, apiKey: string, model: string)
    ensures var existing := Distinct(Keys(ParseEnv(content)));
      var m := Merged(content, apiKey, model);
      && UniqueKeys(m)
      && Keys(m) == existing + (if ApiKeyName in existing then [] else [ApiKeyName])
                            + (if ModelName in existing then [] else [ModelName])
      && Lookup(m, ApiKeyName) == Some(apiKey)
      && Lookup(m, ModelName) == Some(model)
      && forall k :: k != ApiKeyName && k != ModelName ==>
           Lookup(m, k) == Lookup(FromEntries(ParseEnv(content)), k)
  {
    var m0 := FromEntries(ParseEnv(content));
    FromEntriesKeys(ParseEnv(content));
    var m1 := SetEntry(m0, ApiKeyName, apiKey);
    SetEntrySpec(m0, ApiKeyName, apiKey);
    SetEntrySpec(m1, ModelName, model);
    assert ApiKeyName != ModelName;
  }

  /** Both keys are written, each as a `key=value` line. */
  lemma BothKeysWritten(content: string, apiKey: string, model: string)
    ensures var lines := Render(Merged(content, apiKey, model));
      && ApiKeyName + "=" + apiKey in lines
      && ModelName + "=" + model in lines
  {
    var m := Merged(content, apiKey, model);
    MergedKeys(content, apiKey, model);
    var i := KeyIndex(m, ApiKeyName).value;
    assert Render(m)[i] == ApiKeyName + "=" + apiKey;
    var j := KeyIndex(m, ModelName).value;
    assert Render(m)[j] == ModelName + "=" + model;
  }

  /** Only non-empty lines are kept, every one of them, in order. */
  lemma NonEmptySpec(xs: seq<string>)
    ensures forall i :: 0 <= i < |NonEmpty(xs)| ==> NonEmpty(xs)[i] != "" && NonEmpty(xs)[i] in xs
    ensures forall i :: 0 <= i < |xs| && xs[i] != "" ==> xs[i] in NonEmpty(xs)
    ensures (forall i :: 0 <= i < |xs| ==> xs[i] != "") ==> NonEmpty(xs) == xs
  {
    FilterSpec(xs, (x: string) => x != "");
  }

  /** A line is cut at its first "=": the key is what comes before it and the
      value what follows it up to the next "=", if any; a line without "="
      is a key whose value is `undefined`. */
  lemma ParseLineSpec(line: string)
    ensures Find(line, "=").None? ==> ParseLine(line) == Entry(line, Undefined)
    ensures Find(line, "=").Some? ==>
      var i := Find(line, "=").value;
      var rest := line[i + 1..];
      ParseLine(line) == Entry(line[..i], match Find(rest, "=")
                                          case None => rest
                                          case Some(j) => rest[..j])
  {
    SplitOnFind(line, "=");
    if Find(line, "=").Some? {
      var i := Find(line, "=").value;
      SplitOnFind(line[i + 1..], "=");
    }
  }

  lemma {:induction false} JoinSnoc(xs: seq<string>, y: string, sep: string)
    requires |xs| >= 1
    ensures Join(xs + [y], sep) == Join(xs, sep) + sep + y
    decreases |xs|
  {
    if |xs| > 1 {
      JoinSnoc(xs[1..], y, sep);
      assert (xs + [y])[1..] == xs[1..] + [y];
    }
  }

  /** A well-formed map: keys once each, no "=" or newline in keys or values. */
  predicate Plain(m: seq<Entry>) {
    && UniqueKeys(m)
    && forall i :: 0 <= i < |m| ==>
         '=' !in m[i].key && '=' !in m[i].value && '\n' !in m[i].key && '\n' !in m[i].value
  }

  /** Non-empty lines without newlines, joined by newlines and closed by
      one, split and filtered back to themselves. */
  lemma {:induction false} SplitLines(lines: seq<string>)
    requires forall k :: 0 <= k < |lines| ==> lines[k] != "" && '\n' !in lines[k]
    ensures NonEmpty(SplitOn(Join(lines, "\n") + "\n", "\n")) == lines
  {
    assert "\n"[0] == '\n';
    if lines == [] {
      assert Join(["", ""], "\n") == "\n";
      SplitOnJoin(["", ""], "\n");
      assert NonEmpty(["", ""]) == NonEmpty([""]) == [];
    } else {
      var all := lines + [""];
      JoinSnoc(lines, "", "\n");
      assert Join(all, "\n") == Join(lines, "\n") + "\n";
      assert forall k :: 0 <= k < |all| ==> '\n' !in all[k];
      SplitOnJoin(all, "\n");
      assert all[..|all| - 1] == lines && all[|all| - 1] == "";
      assert NonEmpty(all) == NonEmpty(lines);
      NonEmptySpec(lines);
    }
  }

  /** Splitting the written file at its newlines and dropping empty lines
      gives back the rendered lines. */
  lemma SplitSerialized(m: seq<Entry>)
    requires Plain(m)
    ensures NonEmpty(SplitOn(Serialize(m), "\n")) == Render(m)
  {
    var lines := Render(m);
    forall k | 0 <= k < |lines| ensures lines[k] != "" && '\n' !in lines[k] {
      assert lines[k] == m[k].key + "=" + m[k].value;
      assert lines[k][|m[k].key|] == '=';
    }
    SplitLines(lines);
  }

  /** A rendered entry whose key and value hold no "=" parses back to itself. */
  lemma ParseRendered(e: Entry)
    requires '=' !in e.key && '=' !in e.value
    ensures ParseLine(e.key + "=" + e.value) == e
  {
    assert "="[0] == '=';
    assert Join([e.key, e.value], "=") == e.key + "=" + e.value;
    SplitOnJoin([e.key, e.value], "=");
  }

  /** The written file ends in a newline, and reading it back gives the same
      map when no key or value holds "=" or a newline. */
  lemma SerializeRoundTrip(m: seq<Entry>)
    requires Plain(m)
    ensures var s := Serialize(m);
      && |s| >= 1 && s[|s| - 1] == '\n'
      && FromEntries(ParseEnv(s)) == m
  {
    var s := Serialize(m);
    SplitSerialized(m);
    var lines := Render(m);
    forall k | 0 <= k < |lines| ensures ParseLine(lines[k]) == m[k] {
      ParseRendered(m[k]);
    }
    assert ParseEnv(s) == m;
    FromEntriesUnique(m);
  }
}
