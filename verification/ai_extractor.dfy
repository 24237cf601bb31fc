/** `AIExtractor` (core/ai_extractor.py): the API key check, the prompt, and
    the repair of the model's reply into a payload with a `document` root.
    The model call and JSON decoding are code this model cannot see; they
    are parameters. */
module AiExtractor {
  import opened Wrappers
  import opened Text
  import opened FenceRegex

  /** A decoded JSON value. An object keeps its keys in insertion order, as a
      Python `dict` does. */
  datatype Json =
    | JNull
    | JBool(b: bool)
    | JNumber(literal: string)
    | JString(s: string)
    | JArray(items: seq<Json>)
    | JObject(fields: seq<(string, Json)>)

  /** How `process_document` fails, as its caller sees it. `PythonRuntimeError`
      is a `RuntimeError` carrying a message Python composes itself (the text
      of a `TypeError` or `AttributeError`), which is not modelled. */
  datatype Failure =
    | ValueError(message: string)
    | RuntimeError(message: string)
    | PythonRuntimeError

  // ---------------------------------------------------------------------------
  // Construction
  // ---------------------------------------------------------------------------

  datatype Extractor = Extractor(apiKey: string, modelName: string)

  const ModelName := "gemini-2.5-flash"
  const MissingKeyMessage := "No API Key provided. Please enter a valid Gemini API Key."

  /** `api_key or os.environ.get("GEMINI_API_KEY")`: the given key unless it is
      missing or empty. */
  function ChosenKey(apiKey: Option<string>, envKey: Option<string>): Option<string> {
    if apiKey.Some? && apiKey.value != [] then apiKey else envKey
  }

  /** `AIExtractor(api_key)`: a `ValueError` when the chosen key is missing,
      empty or only whitespace. */
  function NewExtractor(apiKey: Option<string>, envKey: Option<string>): (r: Result<Extractor, Failure>)
    ensures r.Success? ==> r.value.modelName == ModelName && Some(r.value.apiKey) == ChosenKey(apiKey, envKey)
    ensures r.Failure? ==> r.error == ValueError(MissingKeyMessage)
  {
    var key := ChosenKey(apiKey, envKey);
    if key.None? || key.value == [] || Strip(key.value) == [] then Failure(ValueError(MissingKeyMessage))
    else Success(Extractor(key.value, ModelName))
  }

  lemma StripEmpty(s: string)
    ensures Strip(s) == [] <==> AllSpace(s)
  {
    var r := Strip(s);
    var i :| StrippedAt(s, r, i);
    if r == [] {
      forall k | 0 <= k < |s|
        ensures IsSpace(s[k])
      {
        if k < i {
          assert s[..i][k] == s[k];
        } else {
          assert s[i..][k - i] == s[k];
        }
      }
    } else {
      assert s[i..i + |r|][0] == s[i];
    }
  }

  /** Construction succeeds exactly when the chosen key has a character that
      is not whitespace; a non-empty given key wins over the environment. */
  lemma KeyCheck(apiKey: Option<string>, envKey: Option<string>)
    ensures NewExtractor(apiKey, envKey).Success? <==>
      ChosenKey(apiKey, envKey).Some? && !AllSpace(ChosenKey(apiKey, envKey).value)
    ensures apiKey.Some? && apiKey.value != [] ==> ChosenKey(apiKey, envKey) == apiKey
    ensures apiKey.Some? && apiKey.value != [] && AllSpace(apiKey.value) ==> NewExtractor(apiKey, envKey).Failure?
    ensures (apiKey.None? || apiKey == Some([])) && envKey.None? ==> NewExtractor(apiKey, envKey).Failure?
  {
    var key := ChosenKey(apiKey, envKey);
    if key.Some? {
      StripEmpty(key.value);
    }
  }

  // ---------------------------------------------------------------------------
  // The prompt
  // ---------------------------------------------------------------------------

  /** The prompt texts of core/config.py, which are not part of this model. */
  datatype Prompts = Prompts(master: string, tablesOnly: string, sampleJson: string)

  const SchemaHeading := "\n\nEXPECTED JSON SCHEMA:\n"

  /** The prompt sent with the document. */
  function FullPrompt(tablesOnly: bool, p: Prompts): string {
    (if tablesOnly then p.tablesOnly else p.master) + SchemaHeading + p.sampleJson
  }

  predicate IsPrefix(a: string, b: string) {
    |a| <= |b| && b[..|a|] == a
  }

  /** Two prefixes of one text: the shorter is a prefix of the longer. */
  lemma PrefixesNest(a: string, b: string, full: string)
    requires IsPrefix(a, full) && IsPrefix(b, full)
    ensures IsPrefix(a, b) || IsPrefix(b, a)
  {
    if |a| <= |b| {
      assert b[..|a|] == full[..|a|];
    } else {
      assert a[..|b|] == full[..|b|];
    }
  }

  /** The prompt is the selected one followed by the schema; when neither
      prompt text starts the other, it does not start with the prompt of the
      other mode. */
  lemma PromptSelection(tablesOnly: bool, p: Prompts)
    ensures var chosen := if tablesOnly then p.tablesOnly else p.master;
      && IsPrefix(chosen, FullPrompt(tablesOnly, p))
      && FullPrompt(tablesOnly, p)[|chosen|..] == SchemaHeading + p.sampleJson
    ensures !IsPrefix(p.master, p.tablesOnly) && !IsPrefix(p.tablesOnly, p.master) ==>
      var other := if tablesOnly then p.master else p.tablesOnly;
      !IsPrefix(other, FullPrompt(tablesOnly, p))
  {
    var chosen := if tablesOnly then p.tablesOnly else p.master;
    var other := if tablesOnly then p.master else p.tablesOnly;
    var full := FullPrompt(tablesOnly, p);
    assert full == chosen + (SchemaHeading + p.sampleJson);
    if IsPrefix(other, full) {
      PrefixesNest(other, chosen, full);
    }
  }

  // ---------------------------------------------------------------------------
  // Objects
  // ---------------------------------------------------------------------------

  /** `key in d` and `d[key]` on an object: the first entry with that key. */
  function Lookup(fields: seq<(string, Json)>, key: string): Option<Json>
    decreases |fields|
  {
    if fields == [] then None
    else if fields[0].0 == key then Some(fields[0].1)
    else Lookup(fields[1..], key)
  }

  predicate HasKey(fields: seq<(string, Json)>, key: string) {
    Lookup(fields, key).Some?
  }

  /** `d.pop(key)`: the object without the key, the others in order. */
  function Remove(fields: seq<(string, Json)>, key: string): seq<(string, Json)>
    decreases |fields|
  {
    if fields == [] then []
    else (if fields[0].0 == key then [] else [fields[0]]) + Remove(fields[1..], key)
  }

  function Keys(fields: seq<(string, Json)>): seq<string>
    decreases |fields|
  {
    if fields == [] then [] else [fields[0].0] + Keys(fields[1..])
  }

  /** Removing a key drops it and keeps every other key's value. */
  lemma {:induction false} RemoveLookup(fields: seq<(string, Json)>, key: string, other: string)
    ensures Lookup(Remove(fields, key), key).None?
    ensures other != key ==> Lookup(Remove(fields, key), other) == Lookup(fields, other)
    decreases |fields|
  {
    if fields != [] {
      RemoveLookup(fields[1..], key, other);
      var rest := Remove(fields[1..], key);
      if fields[0].0 != key {
        assert Remove(fields, key) == [fields[0]] + rest;
        assert ([fields[0]] + rest)[1..] == rest;
      } else {
        assert Remove(fields, key) == rest;
      }
    }
  }

  // ---------------------------------------------------------------------------
  // Auto-heal
  // ---------------------------------------------------------------------------

  const DefaultFilename := "AI_Extracted_Report"
  const UnreadablePrefix := "AI returned unreadable structure. Keys found: "
  const InvalidJsonMessage := "The AI returned invalid JSON format. Try again."

  /** One of the keys a flattened document is recognised by. */
  predicate HasRootKey(fields: seq<(string, Json)>) {
    HasKey(fields, "tables") || HasKey(fields, "main_title") || HasKey(fields, "subtitles") || HasKey(fields, "footer")
  }

  /** Python's `repr` of a list of keys, each in single quotes. */
  function KeysText(keys: seq<string>): string {
    "[" + Join(", ", QuoteAll(keys)) + "]"
  }

  function QuoteAll(keys: seq<string>): seq<string>
    decreases |keys|
  {
    if keys == [] then [] else ["'" + keys[0] + "'"] + QuoteAll(keys[1..])
  }

  /** Why repair fails: the `ValueError` with its message, or a value that is
      not an object, on which Python's own `in`, `pop` or `keys` raises. */
  datatype HealError = Unreadable(message: string) | NotAnObject

  /** Lines 58-66 of `process_document`: a payload with `document` is kept;
      a flattened one is wrapped, its filename lifted out. */
  function AutoHeal(parsed: Json): Result<Json, HealError> {
    match parsed
    case JObject(fields) =>
      if HasKey(fields, "document") then Success(parsed)
      else if HasRootKey(fields) then
        var filename := Lookup(fields, "recommended_filename").GetOr(JString(DefaultFilename));
        Success(JObject([("recommended_filename", filename), ("document", JObject(Remove(fields, "recommended_filename")))]))
      else Failure(Unreadable(UnreadablePrefix + KeysText(Keys(fields))))
    case JString(s) => if Contains(s, "document") then Success(parsed) else Failure(NotAnObject)
    case JArray(items) => if JString("document") in items then Success(parsed) else Failure(NotAnObject)
    case _ => Failure(NotAnObject)
  }

  /** The wrapped form of a flattened payload. */
  lemma WrappedLookup(filename: Json, inner: seq<(string, Json)>)
    ensures var w := [("recommended_filename", filename), ("document", JObject(inner))];
      && Keys(w) == ["recommended_filename", "document"]
      && Lookup(w, "recommended_filename") == Some(filename)
      && Lookup(w, "document") == Some(JObject(inner))
  {
    var w := [("recommended_filename", filename), ("document", JObject(inner))];
    assert w[1..] == [("document", JObject(inner))];
    assert w[1..][1..] == [];
    assert Keys(w[1..]) == ["document"] + Keys(w[1..][1..]);
    assert w[0].0 != "document" by {
      assert |w[0].0| != |"document"|;
    }
  }

  /** A payload with `document` comes back unchanged; a flattened one comes
      back as the filename (its own or the default) and the document, which
      keeps every other key with its value and loses the filename. */
  lemma AutoHealResult(fields: seq<(string, Json)>, key: string)
    ensures HasKey(fields, "document") ==> AutoHeal(JObject(fields)) == Success(JObject(fields))
    ensures !HasKey(fields, "document") && HasRootKey(fields) ==>
      && AutoHeal(JObject(fields)).Success?
      && var healed := AutoHeal(JObject(fields)).value;
      && healed.JObject?
      && Keys(healed.fields) == ["recommended_filename", "document"]
      && Lookup(healed.fields, "recommended_filename") == Some(Lookup(fields, "recommended_filename").GetOr(JString(DefaultFilename)))
      && var inner := Lookup(healed.fields, "document");
      && inner.Some? && inner.value.JObject?
      && !HasKey(inner.value.fields, "recommended_filename")
      && (key != "recommended_filename" ==> Lookup(inner.value.fields, key) == Lookup(fields, key))
    ensures !HasKey(fields, "document") && !HasRootKey(fields) ==>
      AutoHeal(JObject(fields)) == Failure(Unreadable(UnreadablePrefix + KeysText(Keys(fields))))
  {
    RemoveLookup(fields, "recommended_filename", key);
    WrappedLookup(Lookup(fields, "recommended_filename").GetOr(JString(DefaultFilename)), Remove(fields, "recommended_filename"));
  }

  /** Repair is idempotent, and every repaired object has a `document` key. */
  lemma AutoHealIdempotent(parsed: Json)
    requires AutoHeal(parsed).Success?
    ensures AutoHeal(AutoHeal(parsed).value) == AutoHeal(parsed)
    ensures parsed.JObject? ==> var r := AutoHeal(parsed).value; r.JObject? && HasKey(r.fields, "document")
  {
    if parsed.JObject? && !HasKey(parsed.fields, "document") {
      WrappedLookup(Lookup(parsed.fields, "recommended_filename").GetOr(JString(DefaultFilename)), Remove(parsed.fields, "recommended_filename"));
    }
  }

  // ---------------------------------------------------------------------------
  // `process_document`
  // ---------------------------------------------------------------------------

  /** `process_document`: send the prompt, clean the reply, decode it, repair
      it. `generate` stands for the model call on the model name and the
      prompt (the file and the request settings are fixed), failing with the
      exception's text; `decode` stands for `json.loads`, `None` when the text
      is not JSON. A `ValueError` from repair and every other exception leave
      as a `RuntimeError` with the same text; undecodable JSON leaves as a
      `ValueError`. */
  function ProcessDocument(ex: Extractor, prompts: Prompts, tablesOnly: bool,
                           generate: (string, string) -> Result<string, string>,
                           decode: string -> Option<Json>): Result<Json, Failure>
  {
    match generate(ex.modelName, FullPrompt(tablesOnly, prompts))
    case Failure(m) => Failure(RuntimeError(m))
    case Success(raw) =>
      match decode(CleanJsonResponse(raw))
      case None => Failure(ValueError(InvalidJsonMessage))
      case Some(parsed) =>
        match AutoHeal(parsed)
        case Success(healed) => Success(healed)
        case Failure(Unreadable(m)) => Failure(RuntimeError(m))
        case Failure(NotAnObject) => Failure(PythonRuntimeError)
  }

  /** Which error leaves: `ValueError` exactly when decoding fails, a
      `RuntimeError` with the exception's own text for a failed call or an
      unreadable object; a success is the repair of the decoded reply. */
  lemma ProcessErrors(ex: Extractor, prompts: Prompts, tablesOnly: bool,
                      generate: (string, string) -> Result<string, string>,
                      decode: string -> Option<Json>)
    ensures var reply := generate(ex.modelName, FullPrompt(tablesOnly, prompts));
      var r := ProcessDocument(ex, prompts, tablesOnly, generate, decode);
      && (reply.Failure? ==> r == Failure(RuntimeError(reply.error)))
      && (reply.Success? ==>
           var parsed := decode(CleanJsonResponse(reply.value));
           && (r.Failure? && r.error.ValueError? <==> parsed.None?)
           && (parsed.None? ==> r.error.message == InvalidJsonMessage)
           && (parsed.Some? ==> var healed := AutoHeal(parsed.value);
                 && (healed.Success? ==> r == Success(healed.value))
                 && (healed.Failure? && healed.error.Unreadable? ==> r == Failure(RuntimeError(healed.error.message)))
                 && (healed.Failure? && healed.error.NotAnObject? ==> r == Failure(PythonRuntimeError))))
  {
  }

  /** A reply that decodes to an object either fails or carries `document`,
      so it passes the root-key check of the application. */
  lemma ProcessedObjectHasDocument(ex: Extractor, prompts: Prompts, tablesOnly: bool,
                                   generate: (string, string) -> Result<string, string>,
                                   decode: string -> Option<Json>)
    requires var reply := generate(ex.modelName, FullPrompt(tablesOnly, prompts));
      reply.Success? && var parsed := decode(CleanJsonResponse(reply.value)); parsed.Some? && parsed.value.JObject?
    ensures var r := ProcessDocument(ex, prompts, tablesOnly, generate, decode);
      r.Success? ==> r.value.JObject? && HasKey(r.value.fields, "document")
  {
  }
}
