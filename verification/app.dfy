/** The checks app.py makes around the builder and the extractor: the
    filename it offers, the upload's size and signature, the root keys of a
    payload, and how an error is shown. */
module App {
  import opened Wrappers
  import opened Text
  import opened AiExtractor
  import opened FenceRegex

  // ---------------------------------------------------------------------------
  // `sanitize_filename` (app.py:34-36)
  // ---------------------------------------------------------------------------

  /** The characters `sanitize_filename` deletes. */
  predicate Unsafe(c: char) {
    c in "\\/*?:\"<>|"
  }

  /** The `re.sub` of `sanitize_filename`: every unsafe character deleted. */
  function RemoveUnsafe(s: string): (r: string)
    ensures forall i | 0 <= i < |r| :: !Unsafe(r[i])
    decreases |s|
  {
    if s == [] then []
    else
      var rest := RemoveUnsafe(s[1..]);
      if Unsafe(s[0]) then rest else [s[0]] + rest
  }

  /** Deletion keeps exactly the characters that are not unsafe, in order. */
  lemma {:induction false} RemoveUnsafeKeeps(s: string, c: char)
    ensures c in RemoveUnsafe(s) <==> c in s && !Unsafe(c)
    ensures (forall i | 0 <= i < |s| :: !Unsafe(s[i])) ==> RemoveUnsafe(s) == s
    decreases |s|
  {
    if s != [] {
      RemoveUnsafeKeeps(s[1..], c);
      assert s == [s[0]] + s[1..];
      if forall i | 0 <= i < |s| :: !Unsafe(s[i]) {
        assert forall i | 0 <= i < |s[1..]| :: s[1..][i] == s[i + 1];
      }
    }
  }

  function Underscore(c: char): char {
    if c == ' ' then '_' else c
  }

  const MaxNameLength := 50

  /** `sanitize_filename(name)`. */
  function Sanitize(name: string): string {
    var t := ReplaceAll(Strip(RemoveUnsafe(name)), " ", "_");
    if |t| <= MaxNameLength then t else t[..MaxNameLength]
  }

  /** `s.replace(" ", "_")` maps each character on its own. */
  lemma {:induction false} ReplaceSpaces(s: string)
    ensures |ReplaceAll(s, " ", "_")| == |s|
    ensures forall i | 0 <= i < |s| :: ReplaceAll(s, " ", "_")[i] == Underscore(s[i])
    decreases |s|
  {
    if s != [] {
      ReplaceSpaces(s[1..]);
      ReplaceOneCharStep(s, ' ', "_");
      var rest := ReplaceAll(s[1..], " ", "_");
      assert ReplaceAll(s, " ", "_") == [Underscore(s[0])] + rest;
      forall i | 0 <= i < |s|
        ensures ReplaceAll(s, " ", "_")[i] == Underscore(s[i])
      {
        if i > 0 {
          assert s[1..][i - 1] == s[i];
        }
      }
    }
  }

  /** The stripped text sits inside the original at some offset. */
  lemma StripIndex(s: string) returns (k: nat)
    ensures k + |Strip(s)| <= |s|
    ensures forall j | 0 <= j < |Strip(s)| :: Strip(s)[j] == s[k + j]
  {
    var i :| StrippedAt(s, Strip(s), i);
    k := i;
    forall j | 0 <= j < |Strip(s)|
      ensures Strip(s)[j] == s[k + j]
    {
      assert s[i..i + |Strip(s)|][j] == s[i + j];
    }
  }

  /** The sanitized name, character by character: the name without unsafe
      characters and outer whitespace, spaces turned to `_`, cut at 50. */
  lemma SanitizeChars(name: string)
    ensures var t := Strip(RemoveUnsafe(name));
      && |Sanitize(name)| == (if |t| <= MaxNameLength then |t| else MaxNameLength)
      && forall i | 0 <= i < |Sanitize(name)| :: Sanitize(name)[i] == Underscore(t[i])
  {
    ReplaceSpaces(Strip(RemoveUnsafe(name)));
  }

  /** No unsafe character, no space, and at most 50 characters. */
  lemma SanitizeSafe(name: string)
    ensures |Sanitize(name)| <= MaxNameLength
    ensures forall i | 0 <= i < |Sanitize(name)| :: !Unsafe(Sanitize(name)[i]) && Sanitize(name)[i] != ' '
  {
    var u := RemoveUnsafe(name);
    var t := Strip(u);
    var r := Sanitize(name);
    SanitizeChars(name);
    var k := StripIndex(u);
    forall i | 0 <= i < |r|
      ensures !Unsafe(r[i]) && r[i] != ' '
    {
      assert r[i] == Underscore(t[i]);
      assert t[i] == u[k + i];
      UnderscoreSafe(t[i]);
    }
  }

  /** `_` is neither unsafe nor a space. */
  lemma UnderscoreSafe(c: char)
    requires !Unsafe(c)
    ensures !Unsafe(Underscore(c)) && Underscore(c) != ' '
  {
  }

  /** A name that is already safe, space-free, short and has no outer
      whitespace is kept as it is. */
  lemma SanitizeKeeps(name: string)
    requires |name| <= MaxNameLength
    requires forall i | 0 <= i < |name| :: !Unsafe(name[i]) && name[i] != ' '
    requires name == [] || (!IsSpace(name[0]) && !IsSpace(name[|name| - 1]))
    ensures Sanitize(name) == name
  {
    RemoveUnsafeKeeps(name, ' ');
    StripOfStripped(name);
    ReplaceSpaces(name);
  }

  /** Sanitizing again changes nothing unless the cut at 50 left whitespace
      at the end. */
  lemma SanitizeStable(name: string)
    requires var r := Sanitize(name); r == [] || !IsSpace(r[|r| - 1])
    ensures Sanitize(Sanitize(name)) == Sanitize(name)
  {
    var r := Sanitize(name);
    SanitizeSafe(name);
    SanitizeChars(name);
    if r != [] {
      var t := Strip(RemoveUnsafe(name));
      assert r[0] == Underscore(t[0]);
    }
    SanitizeKeeps(r);
  }

  const XlsxSuffix := ".xlsx"

  /** The name of the workbook offered for download: `recommended_filename`
      when the payload has one, the default otherwise. A name that is not a
      string makes `re.sub` raise Python's own `TypeError`. */
  function WorkbookName(fields: seq<(string, Json)>, default: string): Result<string, Raised> {
    match Lookup(fields, "recommended_filename")
    case None => Success(Sanitize(default) + XlsxSuffix)
    case Some(JString(s)) => Success(Sanitize(s) + XlsxSuffix)
    case Some(_) => Failure(RaisedByPython)
  }

  const ManualDefault := "Structured_Hindi_Report"
  const ApiDefault := "AI_Extracted_Report"

  /** Both default names pass the sanitizer unchanged. */
  lemma ManualDefaultKept()
    ensures Sanitize(ManualDefault) == ManualDefault
  {
    var n := ManualDefault;
    assert forall i | 0 <= i < |n| :: !Unsafe(n[i]) && n[i] != ' ';
    SanitizeKeeps(n);
  }

  lemma ApiDefaultKept()
    ensures Sanitize(ApiDefault) == ApiDefault
  {
    var n := ApiDefault;
    assert forall i | 0 <= i < |n| :: !Unsafe(n[i]) && n[i] != ' ';
    SanitizeKeeps(n);
  }

  /** The workbook is the sanitized name plus `.xlsx`, and the default when
      the payload names none. */
  lemma WorkbookNames(fields: seq<(string, Json)>, default: string)
    ensures Lookup(fields, "recommended_filename").None? ==>
      WorkbookName(fields, default) == Success(Sanitize(default) + XlsxSuffix)
    ensures WorkbookName(fields, default).Success? ==>
      var n := WorkbookName(fields, default).value;
      && |n| <= MaxNameLength + 5 && n[|n| - 5..] == XlsxSuffix
      && exists s :: n == Sanitize(s) + XlsxSuffix
    ensures Lookup(fields, "recommended_filename").None? && (default == ManualDefault || default == ApiDefault) ==>
      WorkbookName(fields, default) == Success(default + XlsxSuffix)
  {
    ManualDefaultKept();
    ApiDefaultKept();
    match Lookup(fields, "recommended_filename")
    case None =>
      SanitizeSafe(default);
    case Some(JString(s)) =>
      SanitizeSafe(s);
    case Some(_) =>
  }

  // ---------------------------------------------------------------------------
  // `validate_security_and_size` (app.py:39-58)
  // ---------------------------------------------------------------------------

  newtype byte = x: int | 0 <= x < 256

  const SizeLimit := 5242880
  const TooLargeMessage := "File exceeds the 5MB strict limit."
  const BadSignatureMessage := "Security Alert: Invalid file signature. This is not a genuine Image or PDF."

  const PdfMagic: seq<byte> := [0x25, 0x50, 0x44, 0x46]
  const JpegMagic: seq<byte> := [0xFF, 0xD8]
  const PngMagic: seq<byte> := [0x89, 0x50, 0x4E, 0x47]

  predicate BytesStartWith(s: seq<byte>, p: seq<byte>) {
    |p| <= |s| && s[..|p|] == p
  }

  /** The first four bytes of the upload, or all of them when it is shorter. */
  function Header(content: seq<byte>): seq<byte> {
    if |content| <= 4 then content else content[..4]
  }

  /** The MIME type of an upload of `size` bytes with contents `content`. */
  function ValidateUpload(size: nat, content: seq<byte>): Result<string, Raised> {
    if size > SizeLimit then Failure(RaisedValueError(TooLargeMessage))
    else
      var header := Header(content);
      if BytesStartWith(header, PdfMagic) then Success("application/pdf")
      else if BytesStartWith(header, JpegMagic) then Success("image/jpeg")
      else if BytesStartWith(header, PngMagic) then Success("image/png")
      else Failure(RaisedValueError(BadSignatureMessage))
  }

  /** Only the first four bytes are read, so a signature shows in the
      header exactly when it starts the contents. */
  lemma HeaderPrefix(content: seq<byte>, p: seq<byte>)
    requires |p| <= 4
    ensures BytesStartWith(Header(content), p) <==> BytesStartWith(content, p)
  {
    if BytesStartWith(content, p) {
      assert Header(content)[..|p|] == content[..|p|];
    }
  }

  /** A file over the limit fails on its size whatever it holds; at or
      under the limit, each signature gives its type and anything else is
      refused. */
  lemma UploadClassification(size: nat, content: seq<byte>)
    ensures size > SizeLimit ==> ValidateUpload(size, content) == Failure(RaisedValueError(TooLargeMessage))
    ensures size <= SizeLimit ==>
      && (ValidateUpload(size, content) == Success("application/pdf") <==> BytesStartWith(content, PdfMagic))
      && (ValidateUpload(size, content) == Success("image/jpeg") <==> BytesStartWith(content, JpegMagic))
      && (ValidateUpload(size, content) == Success("image/png") <==> BytesStartWith(content, PngMagic))
      && (ValidateUpload(size, content) == Failure(RaisedValueError(BadSignatureMessage)) <==>
            !BytesStartWith(content, PdfMagic) && !BytesStartWith(content, JpegMagic) && !BytesStartWith(content, PngMagic))
  {
    HeaderPrefix(content, PdfMagic);
    HeaderPrefix(content, JpegMagic);
    HeaderPrefix(content, PngMagic);
    if BytesStartWith(content, JpegMagic) {
      assert content[0] == 0xFF;
    }
    if BytesStartWith(content, PngMagic) {
      assert content[0] == 0x89;
    }
  }

  /** A file of exactly 5242880 bytes passes the size check. */
  lemma LimitIsInclusive(content: seq<byte>)
    ensures ValidateUpload(SizeLimit, content).Failure? ==>
      ValidateUpload(SizeLimit, content).error == RaisedValueError(BadSignatureMessage)
    ensures ValidateUpload(SizeLimit + 1, content) == Failure(RaisedValueError(TooLargeMessage))
  {
  }

  // ---------------------------------------------------------------------------
  // Errors and how they are shown (app.py:207-221)
  // ---------------------------------------------------------------------------

  /** An exception as the page catches it. `RaisedByPython` is one whose
      text Python composes: a `TypeError` or `AttributeError` naming a Python
      type or method, which mentions neither `429` nor `RESOURCE_EXHAUSTED`,
      or, on the pasted-JSON tab, the decoder's own error. */
  datatype Raised = RaisedValueError(message: string) | RaisedOther(message: string) | RaisedByPython

  function FromExtractor(f: Failure): Raised {
    match f
    case ValueError(m) => RaisedValueError(m)
    case RuntimeError(m) => RaisedOther(m)
    case PythonRuntimeError => RaisedByPython
  }

  /** What the upload tab shows for an error; `Unexpected(None)` carries a
      text Python composes. */
  datatype Shown = ShowValueError(text: string) | RateLimited | Unexpected(detail: Option<string>)

  const ErrorMark := "\U{274C} "
  const UnexpectedPrefix := "\U{274C} An unexpected error occurred: "

  predicate IsRateLimit(text: string) {
    Contains(text, "429") || Contains(text, "RESOURCE_EXHAUSTED")
  }

  /** The two `except` clauses of the upload tab. */
  function ShowError(e: Raised): Shown {
    match e
    case RaisedValueError(m) => ShowValueError(ErrorMark + m)
    case RaisedOther(m) => if IsRateLimit(m) then RateLimited else Unexpected(Some(UnexpectedPrefix + m))
    case RaisedByPython => Unexpected(None)
  }

  /** The rate-limit notice appears exactly for an error that is not a
      `ValueError` and mentions `429` or `RESOURCE_EXHAUSTED`; a `ValueError`
      is shown with its own text even when it mentions them. */
  lemma RateLimitClassification(e: Raised)
    ensures ShowError(e) == RateLimited <==> e.RaisedOther? && IsRateLimit(e.message)
    ensures e.RaisedValueError? ==> ShowError(e) == ShowValueError(ErrorMark + e.message)
    ensures e.RaisedOther? && !IsRateLimit(e.message) ==> ShowError(e) == Unexpected(Some(UnexpectedPrefix + e.message))
  {
  }

  /** Through the extractor: a failed model call whose text names the quota
      becomes the rate-limit notice, and undecodable JSON never does. */
  lemma ExtractorErrorsShown(f: Failure)
    ensures f.RuntimeError? ==> (ShowError(FromExtractor(f)) == RateLimited <==> IsRateLimit(f.message))
    ensures f.ValueError? ==> ShowError(FromExtractor(f)) == ShowValueError(ErrorMark + f.message)
  {
  }

  // ---------------------------------------------------------------------------
  // Root keys (app.py:91-95, 175-179)
  // ---------------------------------------------------------------------------

  const ManualSchemaMessage := "Schema Error: Missing 'document' or 'pages' root key."
  const ApiSchemaMessage := "AI Output Error: Missing valid root keys."

  /** `key in payload`: a key of an object, an item of a list, a substring
      of a string; on any other value Python raises `TypeError`. */
  function In(key: string, payload: Json): Option<bool> {
    match payload
    case JObject(fields) => Some(HasKey(fields, key))
    case JArray(items) => Some(JString(key) in items)
    case JString(s) => Some(Contains(s, key))
    case _ => None
  }

  /** The root-key check and the filename lookup of either tab: a payload
      with neither `document` nor `pages` is refused with `message`; a
      payload that passes but is not an object has no `get`. */
  function CheckPayload(payload: Json, message: string, default: string): Result<string, Raised> {
    match (In("document", payload), In("pages", payload))
    case (None, _) => Failure(RaisedByPython)
    case (Some(false), None) => Failure(RaisedByPython)
    case (Some(false), Some(false)) => Failure(RaisedValueError(message))
    case (_, _) => if payload.JObject? then WorkbookName(payload.fields, default) else Failure(RaisedByPython)
  }

  /** The pasted-JSON tab (lines 83-95): a blank paste is refused before
      decoding; otherwise the decoded payload must pass the root-key check.
      `decode` stands for `json.loads`, `None` when the text is not JSON. */
  datatype ManualOutcome = BlankPaste | ManualFailed(error: Raised) | ManualBuild(payload: Json, workbook: string)

  function ManualTab(input: string, decode: string -> Option<Json>): ManualOutcome {
    if Strip(input) == [] then BlankPaste
    else match decode(input)
      case None => ManualFailed(RaisedByPython)
      case Some(payload) =>
        match CheckPayload(payload, ManualSchemaMessage, ManualDefault)
        case Failure(e) => ManualFailed(e)
        case Success(name) => ManualBuild(payload, name)
  }

  /** An object goes on to the builder exactly when it has `document` or
      `pages`, and then under its own sanitized name or the default. */
  lemma ObjectRootKeys(fields: seq<(string, Json)>, message: string, default: string)
    ensures var r := CheckPayload(JObject(fields), message, default);
      && (r == Failure(RaisedValueError(message)) <==> !HasKey(fields, "document") && !HasKey(fields, "pages"))
      && (HasKey(fields, "document") || HasKey(fields, "pages") ==> r == WorkbookName(fields, default))
  {
  }

  /** No payload without `document` and `pages` reaches the builder, on
      either tab. */
  lemma NoBuildWithoutRootKey(payload: Json, message: string, default: string)
    requires In("document", payload) == Some(false) && In("pages", payload) == Some(false)
    ensures CheckPayload(payload, message, default).Failure?
  {
  }

  /** The pasted-JSON tab refuses a paste that is only whitespace, and
      nothing else. */
  lemma ManualTabBlank(input: string, decode: string -> Option<Json>)
    ensures ManualTab(input, decode) == BlankPaste <==> AllSpace(input)
  {
    StripEmpty(input);
  }

  /** The pasted-JSON tab builds only objects with a root key, named as the
      payload says or `Structured_Hindi_Report.xlsx`. */
  lemma ManualTabBuilds(input: string, decode: string -> Option<Json>)
    ensures ManualTab(input, decode).ManualBuild? ==>
      var p := ManualTab(input, decode).payload;
      && Some(p) == decode(input) && p.JObject?
      && (HasKey(p.fields, "document") || HasKey(p.fields, "pages"))
      && ManualTab(input, decode).workbook == WorkbookName(p.fields, ManualDefault).value
      && (Lookup(p.fields, "recommended_filename").None? ==> ManualTab(input, decode).workbook == ManualDefault + XlsxSuffix)
  {
    if ManualTab(input, decode).ManualBuild? {
      var p := ManualTab(input, decode).payload;
      ObjectRootKeys(p.fields, ManualSchemaMessage, ManualDefault);
      ManualDefaultKept();
    }
  }

  /** An upload the extractor turned into an object always passes the
      upload tab's root-key check. */
  lemma ExtractedPassesRootCheck(ex: Extractor, prompts: Prompts, tablesOnly: bool,
                                 generate: (string, string) -> Result<string, string>,
                                 decode: string -> Option<Json>)
    requires var reply := generate(ex.modelName, FullPrompt(tablesOnly, prompts));
      reply.Success? && var parsed := decode(CleanJsonResponse(reply.value)); parsed.Some? && parsed.value.JObject?
    requires ProcessDocument(ex, prompts, tablesOnly, generate, decode).Success?
    ensures var payload := ProcessDocument(ex, prompts, tablesOnly, generate, decode).value;
      CheckPayload(payload, ApiSchemaMessage, ApiDefault) == WorkbookName(payload.fields, ApiDefault)
  {
    ProcessedObjectHasDocument(ex, prompts, tablesOnly, generate, decode);
    var payload := ProcessDocument(ex, prompts, tablesOnly, generate, decode).value;
    ObjectRootKeys(payload.fields, ApiSchemaMessage, ApiDefault);
  }

  // ---------------------------------------------------------------------------
  // The upload tab as written (app.py:150-170)
  // ---------------------------------------------------------------------------

  /** An uploaded file: its size and its contents. */
  datatype Upload = Upload(size: nat, content: seq<byte>)

  /** What pressing the extract button leads to: a warning that no file was
      uploaded, an error that the chosen custom key is empty, or one of the
      `except` clauses of lines 207-221. */
  datatype UploadOutcome = NoFile | NoCustomKey | UploadFailed(shown: Shown)

  /** The key handed to `AIExtractor`: `custom_api_key` is `None` unless the
      toggle is on, and then the text typed in (lines 134-138). */
  function CustomKey(useCustomKey: bool, typed: string): Option<string> {
    if useCustomKey then Some(typed) else None
  }

  /** The button handler up to the extraction call, as written: the two
      guards of lines 151-154, the upload check of line 157, the extractor
      built at line 165, and the call at line 170, which passes the keyword
      `progress_callback` that `process_document` does not accept, so that
      Python raises its own `TypeError` before anything is extracted. */
  function UploadTabAsWritten(file: Option<Upload>, useCustomKey: bool, typed: string,
                              envKey: Option<string>): UploadOutcome {
    if file.None? then NoFile
    else if useCustomKey && typed == [] then NoCustomKey
    else match ValidateUpload(file.value.size, file.value.content)
      case Failure(e) => UploadFailed(ShowError(e))
      case Success(_) =>
        match NewExtractor(CustomKey(useCustomKey, typed), envKey)
        case Failure(f) => UploadFailed(ShowError(FromExtractor(f)))
        case Success(_) => UploadFailed(ShowError(RaisedByPython))
  }

  /** As written, the upload tab never gets to the root-key check, the
      builder or the rate-limit notice. Past the two guards, a file that
      fails the upload check shows that check's message; a file that passes
      shows the missing-key error when there is no usable key, and an
      unexpected error otherwise. */
  lemma UploadTabNeverExtracts(file: Option<Upload>, useCustomKey: bool, typed: string,
                               envKey: Option<string>)
    ensures var r := UploadTabAsWritten(file, useCustomKey, typed, envKey);
      && r.UploadFailed? ==> r.shown != RateLimited
    ensures UploadTabAsWritten(file, useCustomKey, typed, envKey) == NoFile <==> file.None?
    ensures UploadTabAsWritten(file, useCustomKey, typed, envKey) == NoCustomKey <==>
      file.Some? && useCustomKey && typed == []
    ensures file.Some? && !(useCustomKey && typed == []) ==>
      var r := UploadTabAsWritten(file, useCustomKey, typed, envKey);
      var v := ValidateUpload(file.value.size, file.value.content);
      var x := NewExtractor(CustomKey(useCustomKey, typed), envKey);
      && (v.Failure? ==> v.error.RaisedValueError? && r == UploadFailed(ShowValueError(ErrorMark + v.error.message)))
      && (v.Success? ==> (r == UploadFailed(ShowValueError(ErrorMark + MissingKeyMessage)) <==> x.Failure?))
      && (r == UploadFailed(Unexpected(None)) <==> v.Success? && x.Success?)
  {
    if file.Some? {
      UploadClassification(file.value.size, file.value.content);
    }
  }
}
