/**
 * `src/services/ats.service.ts`: the flattened resume text, the two prompts
 * that embed their inputs, the input guards run before the remote call, and
 * the recovery of a JSON object from the model's free-text reply, with every
 * failure of that step funnelled into one message.
 *
 * The remote completion call, `JSON.parse` and the text a PDF yields are not
 * computed here: they are passed in as `complete`, `parse` and `pdfText`.
 */
module AtsService {
  import opened Wrappers
  import opened Strings
  import opened Json
  import opened Types
  import opened SectionText

  // ---------------------------------------------------------------------------
  // Flattened resume text (getResumeTextFromData)

  /**
   * The header values, in the order the header lists them. An optional value
   * comes out empty, and so is dropped from the header, exactly when it is
   * absent or the empty string.
   */
  function HeaderFields(r: ResumeData): (f: seq<string>)
    ensures |f| == 7 && f[..5] == [r.name, r.title, r.phone, r.email, r.location]
    ensures f[5] == "" <==> r.nationality.None? || r.nationality == Some("")
    ensures f[6] == "" <==> r.extraField.None? || r.extraField == Some("")
  {
    [r.name, r.title, r.phone, r.email, r.location, OrEmpty(r.nationality), OrEmpty(r.extraField)]
  }

  /** The non-empty header values joined by newlines. */
  function Header(r: ResumeData): string {
    Join(NonEmpty(HeaderFields(r)), "\n")
  }

  /** The text before the final `trim`. */
  function UntrimmedText(r: ResumeData): string {
    Header(r) + "\n\n" + "Summary\n" + r.summary + "\n\n" + Concat(r.sections, SectionText.SectionText)
  }

  /** The flattened resume: it neither starts nor ends with whitespace. */
  function ResumeText(r: ResumeData): (t: string)
    ensures t == "" || (!IsJsWhitespace(t[0]) && !IsJsWhitespace(t[|t| - 1]))
    ensures |t| <= |UntrimmedText(r)|
  {
    Trim(UntrimmedText(r))
  }

  /** `getResumeTextFromData`: header and summary, then the `+=` loop over the sections, then `trim`. */
  method GetResumeTextFromData(r: ResumeData) returns (t: string)
    ensures t == ResumeText(r)
  {
    var header := Join(NonEmpty(HeaderFields(r)), "\n");
    var text := header + "\n\n";
    text := text + "Summary\n" + r.summary + "\n\n";
    var prefix := text;
    var i := 0;
    while i < |r.sections|
      invariant 0 <= i <= |r.sections|
      invariant text == prefix + Concat(r.sections[..i], SectionText.SectionText)
    {
      ConcatSnoc(r.sections, i, SectionText.SectionText);
      var sectionText := SectionToText(r.sections[i]);
      AppendAssoc(prefix, Concat(r.sections[..i], SectionText.SectionText), sectionText);
      text := text + sectionText;
      i := i + 1;
    }
    assert r.sections[..i] == r.sections;
    t := Trim(text);
  }

  /** When no header value holds a newline, the header's lines are exactly its non-empty values, in order. */
  lemma HeaderLines(r: ResumeData)
    requires forall k :: 0 <= k < |HeaderFields(r)| ==> '\n' !in HeaderFields(r)[k]
    requires NonEmpty(HeaderFields(r)) != []
    ensures Split(Header(r), '\n') == NonEmpty(HeaderFields(r))
  {
    NonEmptyAvoids(HeaderFields(r), '\n');
    SplitJoin(NonEmpty(HeaderFields(r)), '\n');
  }

  /** Sections are rendered in order: the text of two lists is the text of one followed by the other's. */
  lemma SectionsInOrder(a: seq<Section>, b: seq<Section>)
    ensures Concat(a + b, SectionText.SectionText) == Concat(a, SectionText.SectionText) + Concat(b, SectionText.SectionText)
  {
    ConcatAppend(a, b, SectionText.SectionText);
  }

  // ---------------------------------------------------------------------------
  // Input guards

  const MissingApiKey := "Please provide an API key."
  const MissingJobDescription := "Job description is required"

  /**
   * The checks before the scoring call, in order: an API key that is only
   * whitespace first, then an empty job description (which is not trimmed).
   */
  function AnalyzeGuard(apiKey: string, jobDescription: string): (r: Option<string>)
    ensures r == Some(MissingApiKey) <==> forall k :: 0 <= k < |apiKey| ==> IsJsWhitespace(apiKey[k])
    ensures r == Some(MissingJobDescription)
      <==> (exists k :: 0 <= k < |apiKey| && !IsJsWhitespace(apiKey[k])) && jobDescription == ""
    ensures r == None <==> (exists k :: 0 <= k < |apiKey| && !IsJsWhitespace(apiKey[k])) && jobDescription != ""
  {
    TrimEmpty(apiKey);
    if Trim(apiKey) == "" then Some(MissingApiKey)
    else if jobDescription == "" then Some(MissingJobDescription)
    else None
  }

  /** The check before the extraction call: only the API key. */
  function AutofillGuard(apiKey: string): (r: Option<string>)
    ensures r == Some(MissingApiKey) <==> forall k :: 0 <= k < |apiKey| ==> IsJsWhitespace(apiKey[k])
    ensures r.None? <==> r != Some(MissingApiKey)
  {
    TrimEmpty(apiKey);
    if Trim(apiKey) == "" then Some(MissingApiKey) else None
  }

  // ---------------------------------------------------------------------------
  // Prompts

  const ScoringHead: string :=
    "\nYou are an expert Applicant Tracking System (ATS) engine. Analyze the JOB DESCRIPTION and RESUME texts"
    + " below and return ONLY a single JSON object (no extra text, no explanations). Follow the JSON structure"
    + " exactly and compute numeric scores using the explicit formulas and weights given. Round all final"
    + " numeric scores to integers.\n\n--- INPUTS ---\nJob Description:\n"

  const ResumeTextLabel: string := "\n\nResume Text:\n"

  /**
   * The scoring prompt. `rubric` is the fixed text that follows the inputs
   * (parsing rules, weights, output shape); the remote model applies it.
   */
  function ScoringPrompt(jobDescription: string, resumeText: string, rubric: string): string {
    ScoringHead + jobDescription + ResumeTextLabel + resumeText + "\n\n" + rubric
  }

  /** Both inputs appear verbatim, the job description first. */
  lemma ScoringPromptEmbeds(jobDescription: string, resumeText: string, rubric: string)
    ensures var p := ScoringPrompt(jobDescription, resumeText, rubric);
      var i := |ScoringHead|;
      var j := i + |jobDescription| + |ResumeTextLabel|;
      j + |resumeText| <= |p| && p[i..i + |jobDescription|] == jobDescription && p[j..j + |resumeText|] == resumeText
  {
    var p := ScoringPrompt(jobDescription, resumeText, rubric);
    var i := |ScoringHead|;
    var j := i + |jobDescription| + |ResumeTextLabel|;
    assert p == ScoringHead + jobDescription + ResumeTextLabel + resumeText + ("\n\n" + rubric);
    assert p[i..i + |jobDescription|] == jobDescription;
    assert p[j..j + |resumeText|] == resumeText;
  }

  const ExtractionHead: string :=
    "\nYou are a system that extracts structured resume data.\n\nTASK:\nGiven the Resume text below, produce"
    + " a VALID JSON object that STRICTLY matches the ResumeData schema.\n\nCRITICAL RULES (must follow all):\n"
    + "- Output ONLY raw JSON (no markdown, no comments, no explanation).\n"
    + "- The top-level output MUST be a single JSON object.\n"
    + "- ALL required fields MUST exist.\n"
    + "- Use empty strings \"\" for missing string values.\n"
    + "- Use empty arrays [] for missing array values.\n"
    + "- NEVER use null or undefined.\n"
    + "- Array fields MUST always be arrays, even if only one item exists.\n"
    + "- Object items inside arrays MUST contain ALL their required fields.\n"
    + "- Do NOT infer information that is not supported by the Resume text.\n"
    + "- Keep bullet points concise and factual.\n"
    + "- Preserve original wording when possible.\n\nSCHEMA (for reference, not to be reprinted):\n"

  const ResumeTextLead: string := "\n\nRESUME TEXT:\n"
  /** The triple quote that fences the resume text in the extraction prompt. */
  const Fence: string := "\"\"\""
  const ExtractionTail: string := "\n\nOUTPUT:\nReturn ONLY the JSON object that conforms exactly to the schema.\n"

  /** The extraction prompt; `schemaText` is the pretty-printed JSON Schema of the resume. */
  function ExtractionPrompt(schemaText: string, resumeText: string): string {
    ExtractionHead + schemaText + ResumeTextLead + Fence + "\n" + resumeText + "\n" + Fence + ExtractionTail
  }

  /** The resume text appears verbatim between a fence line before it and a fence line after it. */
  lemma ExtractionPromptEmbeds(schemaText: string, resumeText: string)
    ensures var p := ExtractionPrompt(schemaText, resumeText);
      var i := |ExtractionHead + schemaText + ResumeTextLead| + |Fence| + 1;
      i + |resumeText| + 1 + |Fence| <= |p|
      && p[i - |Fence| - 1..i] == Fence + "\n" && p[i..i + |resumeText|] == resumeText
      && p[i + |resumeText|..i + |resumeText| + 1 + |Fence|] == "\n" + Fence
  {
    Fenced(ExtractionHead + schemaText + ResumeTextLead, resumeText, ExtractionTail);
  }

  /** Any text fenced by two fence lines can be read back from its position. */
  lemma Fenced(pre: string, body: string, tail: string)
    ensures var p := pre + Fence + "\n" + body + "\n" + Fence + tail;
      var i := |pre| + |Fence| + 1;
      i + |body| + 1 + |Fence| <= |p|
      && p[i - |Fence| - 1..i] == Fence + "\n" && p[i..i + |body|] == body
      && p[i + |body|..i + |body| + 1 + |Fence|] == "\n" + Fence
  {
    var open := Fence + "\n";
    var close := "\n" + Fence;
    assert pre + Fence + "\n" + body + "\n" + Fence + tail == pre + open + body + close + tail;
    Middle(pre, open, body + close + tail);
    Middle(pre + open, body, close + tail);
    Middle(pre + open + body, close, tail);
  }

  /** The middle part of a three-part concatenation sits where its prefix ends. */
  lemma Middle(a: string, b: string, c: string)
    ensures |a| + |b| <= |a + b + c| && (a + b + c)[|a|..|a| + |b|] == b
  {
  }

  // ---------------------------------------------------------------------------
  // Recovering the JSON object from a reply

  /** The failures of the parse step, before they are collapsed into one message. */
  datatype ReplyError = NoJsonFound | MalformedJson | InvalidStructure

  /** Where the span starts: the first `{`. */
  function SpanStart(reply: string): int {
    IndexOf(reply, '{')
  }

  /** Where the span ends (exclusive): one past the last `}`. */
  function SpanEnd(reply: string): int {
    LastIndexOf(reply, '}') + 1
  }

  /**
   * `reply.slice(indexOf('{'), lastIndexOf('}') + 1)`, failing when either
   * brace is missing; the slice is empty when the last `}` precedes the first `{`.
   */
  function JsonSpan(reply: string): (r: Result<string, ReplyError>)
    ensures r.Err? <==> '{' !in reply || '}' !in reply
    ensures r.Err? ==> r.error == NoJsonFound
    ensures r.Ok? ==> (r.value == "" <==> SpanEnd(reply) <= SpanStart(reply))
    ensures r.Ok? && r.value != "" ==>
      && SpanStart(reply) + |r.value| == SpanEnd(reply)
      && reply[SpanStart(reply)..SpanEnd(reply)] == r.value
      && r.value[0] == '{' && r.value[|r.value| - 1] == '}'
      && (forall k :: 0 <= k < SpanStart(reply) ==> reply[k] != '{')
      && (forall k :: SpanEnd(reply) <= k < |reply| ==> reply[k] != '}')
  {
    var start := IndexOf(reply, '{');
    var end := LastIndexOf(reply, '}') + 1;
    if start == -1 || end == 0 then Err(NoJsonFound)
    else Ok(Slice(reply, start, end))
  }

  /**
   * Text around an object is discarded: when no `{` precedes the object and
   * no `}` follows it, the span is exactly the object's text.
   */
  lemma SpanOfWrapped(pre: string, obj: string, post: string)
    requires |obj| >= 2 && obj[0] == '{' && obj[|obj| - 1] == '}'
    requires '{' !in pre && '}' !in post
    ensures JsonSpan(pre + obj + post) == Ok(obj)
  {
    var reply := pre + obj + post;
    assert reply[|pre|] == '{';
    assert forall k :: 0 <= k < |pre| ==> reply[k] == pre[k];
    assert IndexOf(reply, '{') == |pre|;
    assert reply[|pre| + |obj| - 1] == '}';
    assert forall k :: |pre| + |obj| <= k < |reply| ==> reply[k] == post[k - |pre| - |obj|];
    assert LastIndexOf(reply, '}') == |pre| + |obj| - 1;
    assert reply[|pre|..|pre| + |obj|] == obj;
  }

  /** The example reply with noise around an object yields exactly the object's text. */
  lemma SpanOfNoisyReply()
    ensures JsonSpan("noise " + "{\"a\":1}" + " trailing") == Ok("{\"a\":1}")
  {
    SpanOfWrapped("noise ", "{\"a\":1}", " trailing");
  }

  /** `JSON.parse` of the span, for the scoring reply, which is not validated further. */
  function ParseReply(reply: string, parse: string -> Option<Json>): (r: Result<Json, ReplyError>)
    ensures r.Ok? <==> JsonSpan(reply).Ok? && parse(JsonSpan(reply).value).Some?
    ensures r.Ok? ==> r.value == parse(JsonSpan(reply).value).value
  {
    var span :- JsonSpan(reply);
    match parse(span)
    case None => Err(MalformedJson)
    case Some(j) => Ok(j)
  }

  /** When the last `}` precedes the first `{`, the empty slice fails to parse. */
  lemma InvertedBracesFail(reply: string, parse: string -> Option<Json>)
    requires '{' in reply && '}' in reply && LastIndexOf(reply, '}') < IndexOf(reply, '{')
    requires parse("") == None
    ensures ParseReply(reply, parse) == Err(MalformedJson)
  {
  }

  /** The extraction reply: the parsed value must also pass the resume schema. */
  function ParseResumeReply(reply: string, parse: string -> Option<Json>): (r: Result<ResumeData, ReplyError>)
    ensures r.Ok? <==> ParseReply(reply, parse).Ok? && Validate(ParseReply(reply, parse).value).Ok?
    ensures r.Ok? ==> Validate(ParseReply(reply, parse).value) == Ok(r.value) && WellTyped(r.value)
  {
    var j :- ParseReply(reply, parse);
    match Validate(j)
    case Err(_) => Err(InvalidStructure)
    case Ok(d) => Ok(d)
  }

  const InvalidResponse := "Invalid response from AI"

  /** The `catch` around the parse step: whatever went wrong, one message. */
  function Funnel<T>(r: Result<T, ReplyError>): (r': Result<T, string>)
    ensures r'.Err? ==> r'.error == InvalidResponse
    ensures r'.Ok? <==> r.Ok?
    ensures r.Ok? ==> r'.value == r.value
  {
    match r
    case Ok(v) => Ok(v)
    case Err(_) => Err(InvalidResponse)
  }

  // ---------------------------------------------------------------------------
  // The two actions

  /**
   * `analyzeResume`: guards, flattened text, scoring prompt, remote call
   * (`complete`, whose failures propagate unchanged), then the parse step.
   */
  function AnalyzeResume(
    resume: ResumeData, jobDescription: string, apiKey: string, rubric: string,
    complete: string -> Result<string, string>, parse: string -> Option<Json>): (r: Result<Json, string>)
    ensures AnalyzeGuard(apiKey, jobDescription).Some? ==> r == Err(AnalyzeGuard(apiKey, jobDescription).value)
    ensures r.Ok? ==> (AnalyzeGuard(apiKey, jobDescription).None?
      && var sent := complete(ScoringPrompt(jobDescription, ResumeText(resume), rubric));
      && sent.Ok? && JsonSpan(sent.value).Ok? && Some(r.value) == parse(JsonSpan(sent.value).value))
    ensures r.Err? ==> (r.error in {MissingApiKey, MissingJobDescription, InvalidResponse}
      || complete(ScoringPrompt(jobDescription, ResumeText(resume), rubric)) == Err(r.error))
  {
    match AnalyzeGuard(apiKey, jobDescription)
    case Some(e) => Err(e)
    case None =>
      var reply :- complete(ScoringPrompt(jobDescription, ResumeText(resume), rubric));
      Funnel(ParseReply(reply, parse))
  }

  /**
   * `autofillFromResume`: the key guard, the PDF's text (`pdfText`, whose
   * failure propagates), the extraction prompt, the remote call, then the
   * parse-and-validate step.
   */
  function AutofillFromResume(
    pdfText: Result<string, string>, apiKey: string, schemaText: string,
    complete: string -> Result<string, string>, parse: string -> Option<Json>): (r: Result<ResumeData, string>)
    ensures AutofillGuard(apiKey).Some? ==> r == Err(MissingApiKey)
    ensures AutofillGuard(apiKey).None? && pdfText.Err? ==> r == Err(pdfText.error)
    ensures r.Ok? ==> (AutofillGuard(apiKey).None? && pdfText.Ok?
      && var sent := complete(ExtractionPrompt(schemaText, pdfText.value));
      && sent.Ok? && JsonSpan(sent.value).Ok? && parse(JsonSpan(sent.value).value).Some?
      && Validate(parse(JsonSpan(sent.value).value).value) == Ok(r.value))
    ensures r.Ok? ==> WellTyped(r.value)
  {
    match AutofillGuard(apiKey)
    case Some(e) => Err(e)
    case None =>
      var text :- pdfText;
      var reply :- complete(ExtractionPrompt(schemaText, text));
      Funnel(ParseResumeReply(reply, parse))
  }

  /** The guards run first, in order, before anything is sent. */
  lemma AnalyzeGuardsFirst(
    resume: ResumeData, jobDescription: string, apiKey: string, rubric: string,
    complete: string -> Result<string, string>, parse: string -> Option<Json>)
    ensures (forall k :: 0 <= k < |apiKey| ==> IsJsWhitespace(apiKey[k]))
      ==> AnalyzeResume(resume, jobDescription, apiKey, rubric, complete, parse) == Err(MissingApiKey)
    ensures (exists k :: 0 <= k < |apiKey| && !IsJsWhitespace(apiKey[k])) && jobDescription == ""
      ==> AnalyzeResume(resume, jobDescription, apiKey, rubric, complete, parse) == Err(MissingJobDescription)
  {
  }

  /**
   * Once the reply is in, the scoring action fails only with the one message,
   * and succeeds with exactly what `JSON.parse` made of the span.
   */
  lemma AnalyzeFunnelsReplyErrors(
    resume: ResumeData, jobDescription: string, apiKey: string, rubric: string,
    complete: string -> Result<string, string>, parse: string -> Option<Json>, reply: string)
    requires AnalyzeGuard(apiKey, jobDescription).None?
    requires complete(ScoringPrompt(jobDescription, ResumeText(resume), rubric)) == Ok(reply)
    ensures var r := AnalyzeResume(resume, jobDescription, apiKey, rubric, complete, parse);
      && (r.Err? ==> r.error == InvalidResponse)
      && (r.Ok? <==> JsonSpan(reply).Ok? && parse(JsonSpan(reply).value).Some?)
      && (r.Ok? ==> r.value == parse(JsonSpan(reply).value).value)
  {
  }

  /**
   * Once the reply is in, the autofill action fails only with the one message
   * (no braces, unparsable span, or a schema mismatch alike), and succeeds with
   * exactly the validated resume.
   */
  lemma AutofillFunnelsReplyErrors(
    text: string, apiKey: string, schemaText: string,
    complete: string -> Result<string, string>, parse: string -> Option<Json>, reply: string)
    requires AutofillGuard(apiKey).None?
    requires complete(ExtractionPrompt(schemaText, text)) == Ok(reply)
    ensures var r := AutofillFromResume(Ok(text), apiKey, schemaText, complete, parse);
      && (r.Err? ==> r.error == InvalidResponse)
      && (r.Ok? <==> JsonSpan(reply).Ok? && parse(JsonSpan(reply).value).Some?
                     && Validate(parse(JsonSpan(reply).value).value).Ok?)
      && (r.Ok? ==> Validate(parse(JsonSpan(reply).value).value) == Ok(r.value))
  {
  }
}
