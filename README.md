# resumer: a Dafny model of the resume core

This project models the core of an ATS (applicant tracking system) resume
analyzer, a browser app that keeps a resume, asks a hosted model to score it
against a job description, and fills the resume in from an uploaded PDF. The
model covers these parts:

- **Resume schema** (`Types`). A resume has seven header strings, two of them
  optional, a summary and an ordered list of sections. Each section is one of
  four types (experience, education, skills, custom), and each type has its own
  item shape.
  - `Validate` plays the role of the schema library's `safeParse`.
  - `ToJson` is the object that `JSON.stringify` is given.
  - The main result is the storage round trip: `Validate(ToJson(r)) == Ok(r)`
    holds exactly when every item matches its section's type.
- **Text flattening** (`SectionText`, `AtsService`). This is the plain text that
  the scoring prompt embeds, built whitespace-exact.
  - `sectionToText` and `getResumeTextFromData` are loops that append to an
    accumulator. They are modelled as methods, each proved equal to a
    specification function.
  - The JavaScript built-ins they use are modelled in `Strings`: `trim`,
    `filter(Boolean)`, `join`, `split`, `indexOf`, `lastIndexOf` and `slice`.
- **Reply handling** (`AtsService`).
  - The input guards.
  - Where the two prompts place their inputs.
  - The JSON span, which runs from the first `{` to the last `}` of the model's reply.
  - Every parse or validation failure is collapsed into the single message
    "Invalid response from AI".
- **Editor operations** (`ResumeForm`). Field updates; replacing, removing and
  appending sections; per-type empty items; item patches and removal; and the
  newline encoding of list textareas. Each operation is a function from resume
  to resume, with "nothing else changes" contracts.
- **API key store** (`Base64`, `ApiKey`).
  - `btoa`, following section 4 of RFC 4648. Bytes and 6-bit values are
    `bv8`, so the bit splitting is stated with shifts and masks.
  - `atob`, following the WHATWG forgiving-base64 decode.
  - The salted `encode`/`decode` pair and its round trip.
  - A class holding the key and its session-storage entry.
- **Resume store** (`App`). Hydration from local storage, which falls back to
  the default resume on any failure. A class whose methods write the snapshot
  after every change.

The remote completion call, PDF text extraction, `JSON.parse`,
`JSON.stringify` and the JSON Schema text are not computed. Each is a
parameter: `complete`, `pdfText`, `parse`, `stringify` and `schemaText`.

In three places the code behaves differently from what one might expect; the
model follows the code:

- **Job description guard.** The code rejects only an empty job description
  (`src/services/ats.service.ts:15`). It does not trim it first.
- **Unknown keys.** Keys the schema does not name are dropped during
  validation (`src/types.ts:13-77`, `z.object` is not strict). They are not
  rejected. For the resume object, `Types.UnknownKeysIgnored` states this.
  For a section object, `Types.SectionUnknownKeysIgnored` states it, and
  `Types.SectionAccepted` accepts any object holding a section, whatever
  other keys it has.
- **Item blocks.** Experience, education and custom item blocks are not
  followed by a blank line. The trailing `""` each block lists is itself
  removed by `filter(Boolean)` (`src/types.ts:106-108`), so consecutive blocks
  abut with no separator. `SectionText.BlockTextDropsTrailing` and
  `SectionText.SampleExperienceText` state this for a sample experience item.

## Model

| member | source | states |
|---|---|---|
| Types.TypeOfTag | src/types.ts:60-65 | a `type` string selects a variant exactly when it is one of the four literals, and that variant's literal is the string |
| Types.Str | src/types.ts:6 | `z.string()` accepts exactly a present JSON string, and yields that string |
| Types.OptStr | src/types.ts:8 | `z.string().optional()` accepts exactly an absent key or a string, and the key holds the result's value |
| Types.StrArr | src/types.ts:10 | `z.array(z.string())` accepts exactly an array of strings, and that array is the result's entries in order |
| Types.OptStrArr | src/types.ts:50 | an accepted optional string list is absent exactly when its key is, and otherwise is the key's array |
| Types.Opt | src/types.ts:8 | `.optional()`: an absent key is accepted as absent; a present value must pass the inner schema and yields its value |
| Types.ValidateArray | src/types.ts:10 | an array passes exactly when every element passes, and the result holds each element's value at its index |
| Types.Arr | src/types.ts:17 | `z.array`: a non-array fails; an array passes exactly when all its elements do |
| Types.ValidateItem | src/types.ts:5-51 | an accepted item has the shape of the section type it was checked against, and the object holds each of its fields under the field's key (an absent optional field is an absent key) |
| Types.Discriminator | src/types.ts:60-65 | the `type` field is accepted exactly when it is one of the four literals, and selects that variant |
| Types.ValidateSection | src/types.ts:13-65 | an accepted section is well typed and held by the object (`HoldsSection`): its `type`, `id` and `title` are the object's own; `items` is an array of the same length whose every element validates, under the section's type, to the item at that index |
| Types.ValidateSectionExactly | src/types.ts:13-65 | `ValidateSection(j)` gives `s` exactly when `j` is an object holding `s`, whatever other keys it has |
| Types.SectionAccepted | src/types.ts:13-65 | an object holding a section's type tag, id, title and an items array whose elements validate to its items passes the section schema and gives exactly that section |
| Types.SectionUnknownKeysIgnored | src/types.ts:13-65 | adding a key a section schema does not name does not change that section's validation outcome |
| Types.Sections | src/types.ts:76 | `z.array(SectionSchema)`: accepted exactly when the value is an array all of whose elements are valid sections, and then element `i` validates to section `i` |
| Types.Validate | src/types.ts:67-77 | an accepted resume is well typed; each required header field is the object's string; an optional field is absent exactly when its key is, and otherwise is the key's string; `sections` is an array of the same length whose every element validates to the section at that index |
| Types.ToJson | src/App.tsx:32 | the object `JSON.stringify` is given: every field under its schema key, an absent optional field left out; `ValidateToJson` and `RoundTrip` state that it validates back to the resume |
| Types.StringsRoundTrip | src/types.ts:10 | a string list written as a JSON array passes `z.array(z.string())` and gives the same list |
| Types.ItemRoundTrip | src/types.ts:5-51 | an item's JSON passes the item schema of a section type exactly when the item is of that type, and then gives the item back |
| Types.ItemRoundTripSameKind | src/types.ts:5-51 | an item's JSON passes its own type's item schema and gives the item back |
| Types.ItemHeld | src/types.ts:5-51 | an item's JSON holds each of its fields under the field's schema key, and an absent optional field as an absent key |
| Types.ValidateItemExactly | src/types.ts:5-51 | `ValidateItem(kind, j)` gives `it` exactly when `j` is an object holding `it`'s fields and `it` is of variant `kind` |
| Types.ItemAccepted | src/types.ts:5-51 | an object holding an item's fields passes that item's own schema and gives exactly that item |
| Types.ExperienceAccepted | src/types.ts:5-11 | an object holding an experience item's fields passes the experience schema and gives the item |
| Types.EducationAccepted | src/types.ts:20-26 | an object holding an education item's fields passes the education schema and gives the item |
| Types.SkillsAccepted | src/types.ts:35-38 | an object holding a skills item's fields passes the skills schema and gives the item |
| Types.CustomAccepted | src/types.ts:47-51 | an object holding a custom item's fields passes the custom schema and gives the item |
| Types.ItemOtherKindRejected | src/types.ts:5-51 | an item's JSON fails the item schema of every other section type |
| Types.SectionRoundTrip | src/types.ts:13-65 | a section's JSON validates exactly when the section is well typed, and then gives the section back |
| Types.SectionLookups | src/types.ts:13-65 | a section's JSON holds its type tag, id, title and items under the schema's keys |
| Types.ItemsRoundTrip | src/types.ts:13-65 | a section's items pass its type's item schema exactly when all are of that type, and then come back unchanged |
| Types.SectionsRoundTrip | src/types.ts:76 | a list of well-typed sections written as JSON validates back to the same list |
| Types.ValidateFromProps | src/types.ts:67-77 | an object each of whose schema keys yields a resume's field validates to that resume |
| Types.HeaderLookups | src/types.ts:67-75 | the required string keys of a resume's JSON hold its header strings |
| Types.OptionalLookups | src/types.ts:73-76 | the optional keys of a resume's JSON hold its optional strings, present exactly when set, and `sections` holds the sections |
| Types.ValidateToJson | src/types.ts:67-77 | every well-typed resume's JSON validates back to the resume |
| Types.RoundTrip | src/types.ts:67-77 | `Validate(ToJson(r)) == Ok(r)` holds exactly when `r` is well typed |
| Types.DefaultResumeValidates | src/types.ts:82-92 | `defaultResume` (the constant `Types.DefaultResume`: every string empty, the two optional ones present and empty, no sections) passes the schema unchanged |
| Types.DuplicateIdsAccepted | src/types.ts:14 | two sections with the same empty id are accepted |
| Types.UnknownKeysIgnored | src/types.ts:67-77 | adding a key the schema does not name does not change the validation outcome |
| SectionText.GpaLine | src/types.ts:120 | the GPA line is non-empty exactly when the gpa is present and non-empty |
| SectionText.BlockText | src/types.ts:100-109 | `[...lines, ""].filter(Boolean).join("\n")`; `BlockTextDropsTrailing` and `BlockEndsWithLastLine` state its shape |
| SectionText.ItemLines | src/types.ts:99-144 | the lines a block item lists, in the source's order (role, duration, company, location, bullets; degree, duration, institution, location, GPA line; label, value, bullets), an absent optional field as `""` |
| SectionText.ItemText | src/types.ts:97-145 | what one item appends: the block text of its lines, or for a skills item the one line `category: items joined by ", "`; `SkillsOneLine` and `SampleExperienceText` state its shape |
| SectionText.SectionText | src/types.ts:94-149 | a section's text starts with its title line and ends with a newline |
| SectionText.SectionToText | src/types.ts:94-149 | the accumulator loop over the items computes exactly the section's text |
| SectionText.BlockTextDropsTrailing | src/types.ts:100-109 | the trailing `""` of a block adds nothing: the block is the non-empty lines joined by newlines |
| SectionText.BlockEndsWithLastLine | src/types.ts:100-109 | a block with no non-empty line is empty; otherwise it ends with its last non-empty line and no newline |
| SectionText.SectionTextOfItems | src/types.ts:97-148 | a section's text is its title line, then each item's text in order, then a newline |
| SectionText.EducationGpaLine | src/types.ts:115-125 | an education block has the line "GPA: <gpa>" last, exactly when the gpa is present and non-empty |
| SectionText.SkillsOneLine | src/types.ts:128-132 | a skills item is exactly one line, starting with "<category>: ", even with an empty category or no items |
| SectionText.SampleKeptLines | src/types.ts:100-109 | for the sample experience item, only the absent location is dropped from its lines |
| SectionText.SampleExperienceText | src/types.ts:99-110 | the sample experience item renders as "Engineer\n2020-2023\nAcme\nBuilt X", with no trailing newline |
| Strings.TrimStart | src/services/ats.service.ts:320 | drops the longest whitespace prefix and keeps the rest as a suffix |
| Strings.TrimEnd | src/services/ats.service.ts:320 | drops the longest whitespace suffix and keeps the rest as a prefix |
| Strings.Trim | src/services/ats.service.ts:320 | the trimmed text neither starts nor ends with whitespace |
| Strings.TrimIsSlice | src/services/ats.service.ts:320 | `trim` keeps one contiguous slice of its input and removes only whitespace around it |
| Strings.TrimFixpoint | src/services/ats.service.ts:320 | a text is unchanged by `trim` exactly when it neither starts nor ends with whitespace |
| Strings.TrimIdempotent | src/services/ats.service.ts:320 | trimming twice is trimming once |
| Strings.TrimEmpty | src/services/ats.service.ts:7 | a text trims to empty exactly when every character is whitespace |
| Strings.NonEmpty | src/services/ats.service.ts:309 | `filter(Boolean)` keeps no empty string and never lengthens the list |
| Strings.NonEmptyAppend | src/types.ts:108 | filtering distributes over concatenation, so the kept values stay in order |
| Strings.NonEmptyKeepsAll | src/types.ts:108 | a list with no empty string survives filtering whole |
| Strings.NonEmptyAvoids | src/services/ats.service.ts:309 | filtering cannot introduce a character that no element holds |
| Strings.Join | src/services/ats.service.ts:310 | `join(sep)`: the elements with one separator between neighbours; `JoinSplit`, `JoinEndsWithLast`, `JoinStartsWithFirst` and `JoinAvoids` state its properties |
| Strings.JoinEndsWithLast | src/types.ts:109 | a joined list ends with its last element |
| Strings.JoinStartsWithFirst | src/types.ts:109 | a joined list starts with its first element |
| Strings.JoinAvoids | src/types.ts:130 | joining with a separator free of a character keeps the character out |
| Strings.ConcatSnoc | src/services/ats.service.ts:316-318 | appending one more element's text extends the concatenation by exactly that text |
| Strings.ConcatAppend | src/services/ats.service.ts:316-318 | the text of two lists is the first list's text followed by the second's |
| Strings.IndexOf | src/services/ats.service.ts:198 | the first position of the character, or -1 exactly when it is absent |
| Strings.LastIndexOf | src/services/ats.service.ts:199 | the last position of the character, or -1 exactly when it is absent |
| Strings.Slice | src/services/ats.service.ts:201 | `slice(a, b)` is empty when `b <= a`, otherwise the `b - a` characters from `a` |
| Strings.StartsWith | src/hooks/useApiKey.ts:12 | `startsWith`: holds exactly when the pattern occurs at position 0 |
| Strings.IndexOfString | src/hooks/useApiKey.ts:13 | -1 exactly when the pattern occurs nowhere; otherwise the pattern occurs at the result and at no earlier position; 0 exactly when the text starts with the pattern |
| Strings.ReplaceFirst | src/hooks/useApiKey.ts:13 | `replace` with a string pattern: the text unchanged when the pattern occurs nowhere, otherwise the text with its first occurrence, and only that one, replaced; `ReplacePrefix` states the case `decode` relies on |
| Strings.ReplacePrefix | src/hooks/useApiKey.ts:13 | replacing a pattern the text starts with by `""` drops exactly that prefix |
| Strings.Split | src/components/ResumeForm.tsx:180 | `split` on one character gives at least one piece, and no piece holds the separator |
| Strings.JoinCons | src/components/ResumeForm.tsx:179 | joining an element in front of a non-empty list puts one separator between them |
| Strings.SplitAtFirst | src/components/ResumeForm.tsx:180 | one step of `split`: the piece before the first separator, then the split of the rest |
| Strings.JoinSplit | src/components/ResumeForm.tsx:179-180 | `join(split(s, "\n"), "\n") == s` for every text |
| Strings.SplitJoin | src/components/ResumeForm.tsx:179-180 | splitting the join of a non-empty, newline-free list gives the list back |
| Strings.SplitJoinEmpty | src/components/ResumeForm.tsx:179-180 | the empty list does not round-trip: it comes back as `[""]` |
| AtsService.HeaderFields | src/services/ats.service.ts:300-308 | the seven header values in the source's order; an optional value comes out empty, and so is filtered out, exactly when it is absent or the empty string |
| AtsService.Header | src/services/ats.service.ts:300-310 | the non-empty header values joined by newlines; `HeaderLines` states its lines |
| AtsService.UntrimmedText | src/services/ats.service.ts:312-318 | the accumulated text before `trim`: header, blank line, summary block, then the section texts in order; `SectionsInOrder` states the order |
| AtsService.ResumeText | src/services/ats.service.ts:312-320 | the flattened text has no leading or trailing whitespace and is no longer than the untrimmed text |
| AtsService.GetResumeTextFromData | src/services/ats.service.ts:299-321 | the loop over the sections computes exactly the trimmed header, summary and section texts |
| AtsService.HeaderLines | src/services/ats.service.ts:300-310 | when no header value holds a newline, the header's lines are exactly its non-empty values in order |
| AtsService.SectionsInOrder | src/services/ats.service.ts:316-318 | sections are rendered in list order: the text of `a + b` is the text of `a` followed by that of `b` |
| AtsService.AnalyzeGuard | src/services/ats.service.ts:7-17 | a whitespace-only key is rejected first; otherwise an empty (untrimmed) job description is rejected; otherwise nothing is |
| AtsService.AutofillGuard | src/services/ats.service.ts:217-219 | the extraction call is refused exactly when the key is whitespace only |
| AtsService.ScoringPrompt | src/services/ats.service.ts:21-192 | the scoring prompt: the fixed head, the job description, the resume text under its label, then the rubric; `ScoringPromptEmbeds` states where each input sits |
| AtsService.ScoringPromptEmbeds | src/services/ats.service.ts:21-29 | the scoring prompt holds the job description and then the resume text verbatim, at fixed positions |
| AtsService.ExtractionPrompt | src/services/ats.service.ts:224-253 | the extraction prompt: the fixed head, the schema text, then the resume text between two fence lines; `ExtractionPromptEmbeds` states it |
| AtsService.ExtractionPromptEmbeds | src/services/ats.service.ts:244-249 | the extraction prompt holds the resume text verbatim, with a `"""` line right before it and right after it |
| AtsService.Fenced | src/services/ats.service.ts:246-249 | any text placed between two fence lines can be read back from its position |
| AtsService.Middle | src/services/ats.service.ts:21-29 | the middle part of a three-part concatenation sits right after its prefix |
| AtsService.JsonSpan | src/services/ats.service.ts:198-201 | fails exactly when there is no `{` or no `}`; the span is empty exactly when the last `}` precedes the first `{`; a non-empty span is the reply's slice from the first `{` to the last `}`, and no `{` comes before it and no `}` after it |
| AtsService.SpanOfWrapped | src/services/ats.service.ts:198-201 | text around an object that holds no `{` before it and no `}` after it is discarded: the span is the object |
| AtsService.SpanOfNoisyReply | src/services/ats.service.ts:198-201 | the span of `noise {"a":1} trailing` is `{"a":1}` |
| AtsService.ParseReply | src/services/ats.service.ts:196-206 | succeeds exactly when the span exists and parses, and yields the parsed value |
| AtsService.InvertedBracesFail | src/services/ats.service.ts:201-202 | when the last `}` precedes the first `{`, the empty slice is parsed and fails |
| AtsService.ParseResumeReply | src/services/ats.service.ts:257-270 | succeeds exactly when the span parses and validates, and yields the validated, well-typed resume |
| AtsService.Funnel | src/services/ats.service.ts:203-206 | every failure of the parse step becomes "Invalid response from AI"; success passes through unchanged |
| AtsService.AnalyzeResume | src/services/ats.service.ts:5-213 | a guard failure is returned as it is; a success means the guards passed, the call answered and the result is what `JSON.parse` made of the reply's span; every error is a guard message, "Invalid response from AI", or the call's own error |
| AtsService.AutofillFromResume | src/services/ats.service.ts:215-279 | a blank key gives the key message; a failed PDF extraction propagates; a success means the call answered and its span parsed and validated to exactly the result, which is well typed |
| AtsService.AnalyzeGuardsFirst | src/services/ats.service.ts:5-17 | the scoring action fails with the guard's message before any call is made |
| AtsService.AnalyzeFunnelsReplyErrors | src/services/ats.service.ts:194-208 | once the reply arrives, scoring fails only with "Invalid response from AI" and succeeds with exactly the parsed span |
| AtsService.AutofillFunnelsReplyErrors | src/services/ats.service.ts:255-274 | once the reply arrives, autofill fails only with "Invalid response from AI" and succeeds with exactly the validated resume |
| ResumeForm.Update | src/components/ResumeForm.tsx:16-17 | after `update(key, val)` the field reads `val`, every other field reads as before, and the sections are unchanged |
| ResumeForm.FieldsDetermine | src/components/ResumeForm.tsx:16-17 | two resumes that agree on every field and on the sections are equal |
| ResumeForm.UpdateSameValue | src/components/ResumeForm.tsx:16-17 | writing the value a field already holds changes nothing |
| ResumeForm.UpdateLastWins | src/components/ResumeForm.tsx:16-17 | of two writes to one field, the later one wins |
| ResumeForm.UpdateCommutes | src/components/ResumeForm.tsx:16-17 | writes to two different fields commute |
| ResumeForm.UpdateKeepsWellTyped | src/components/ResumeForm.tsx:16-17 | header edits keep the resume well typed |
| ResumeForm.RemoveAt | src/components/ResumeForm.tsx:28 | filtering out index `i` shortens an in-range list by one and keeps the rest in order; an index outside the list removes nothing |
| ResumeForm.RemoveAtSubset | src/components/ResumeForm.tsx:28 | every element left after the removal was an element at another index |
| ResumeForm.RemoveAtSplice | src/components/ResumeForm.tsx:28 | removing `x` from `a + [x] + b` at its position gives `a + b` |
| ResumeForm.UpdateSection | src/components/ResumeForm.tsx:19-23 | exactly position `index` is replaced; length, other sections and header fields are unchanged; well typing is kept |
| ResumeForm.RemoveSection | src/components/ResumeForm.tsx:25-29 | exactly the section at `index` goes and the rest keep their order; out of range nothing changes; well typing is kept |
| ResumeForm.DefaultTitle | src/components/ResumeForm.tsx:34-40 | the title a new section starts with ("Experience", "Education", "Skills" or "Custom Section" by type); it is never empty |
| ResumeForm.DefaultTitlesDistinct | src/components/ResumeForm.tsx:34-40 | sections of different types start with different titles |
| ResumeForm.AddSection | src/components/ResumeForm.tsx:31-47 | one section is appended with the given id and type, no items and the type's default title; the rest is unchanged |
| ResumeForm.RemoveAddedSection | src/components/ResumeForm.tsx:25-47 | removing the section just added restores the resume |
| ResumeForm.Retitle | src/components/ResumeForm.tsx:128 | a title edit changes only that section's title, never its id, type or items |
| ResumeForm.EmptyItem | src/components/ResumeForm.tsx:129-150 | the pushed empty item has the section's own type |
| ResumeForm.EmptyItemValidates | src/components/ResumeForm.tsx:129-150 | the pushed empty item passes its own type's item schema and fails every other type's |
| ResumeForm.AddItem | src/components/ResumeForm.tsx:129-153 | `onAdd` appends exactly one empty item of the section's type and changes nothing else |
| ResumeForm.ApplyPatch | src/components/ResumeForm.tsx:156-161 | an item patch never changes the item's type; the patched key reads the sent value (a list textarea's text split on newlines) and every other key reads as before |
| ResumeForm.ItemFieldsDetermine | src/components/ResumeForm.tsx:156-161 | two items of one type that agree on every key are the same item |
| ResumeForm.PatchLastWins | src/components/ResumeForm.tsx:156-161 | of two patches to one key, the later wins |
| ResumeForm.PatchesCommute | src/components/ResumeForm.tsx:156-161 | patches to different keys commute |
| ResumeForm.ListText | src/components/ResumeForm.tsx:179-220 | what a list textarea shows: the list joined by newlines, and empty text for a custom item without bullets; `ListEditShowsTyped` and `ListEditKeepsList` state its round trips with the list patch |
| ResumeForm.ListPatch | src/components/ResumeForm.tsx:177-221 | a list textarea sends a patch that fits its item's type |
| ResumeForm.ListEditShowsTyped | src/components/ResumeForm.tsx:179-180 | whatever is typed into a list textarea is exactly what it shows after the edit |
| ResumeForm.ListEditKeepsList | src/components/ResumeForm.tsx:177-221 | re-sending the shown text leaves a non-empty, newline-free list unchanged |
| ResumeForm.EmptyListBecomesBlank | src/components/ResumeForm.tsx:179-180 | an edit of an empty bullet list yields one empty bullet |
| ResumeForm.PatchItem | src/components/ResumeForm.tsx:156-161 | only the targeted item changes, to the patched item; the section's id, type and title and every other item and section are kept; well typing is kept |
| ResumeForm.RemoveItem | src/components/ResumeForm.tsx:166-169 | only the targeted item goes, the rest keep their order; the section's id, type and title are kept; well typing is kept |
| ResumeForm.RemoveAddedItem | src/components/ResumeForm.tsx:129-169 | removing the item just added restores the resume |
| ResumeForm.AutofillOutcome | src/components/ResumeForm.tsx:49-64 | with no key, an error and no change; otherwise the extracted resume replaces the current one, or a non-empty error message is shown |
| Base64.SextetOf | src/hooks/useApiKey.ts:11 | an alphabet character reads as the 6-bit value whose character it is |
| Base64.SextetRoundTrip | src/hooks/useApiKey.ts:7 | each 6-bit value's character reads back as that value |
| Base64.Chars | src/hooks/useApiKey.ts:7 | each written character reads back as its 6-bit value |
| Base64.ByteOf | src/hooks/useApiKey.ts:7 | a number below 256 becomes the byte of that value |
| Base64.CharByte | src/hooks/useApiKey.ts:7 | a Latin-1 character becomes the byte of its code point |
| Base64.ByteChar | src/hooks/useApiKey.ts:11 | a byte becomes the character of that code point |
| Base64.EncodeSextets | src/hooks/useApiKey.ts:7 | every value is below 64, and the count is `EncodedLength`: four per three bytes, two or three for one or two trailing bytes |
| Base64.EncodedLengthOf | src/hooks/useApiKey.ts:7 | `3q + r` bytes (`r < 3`) give `4q` values, plus `r + 1` when `r > 0` |
| Base64.EncodedLengthClosed | src/hooks/useApiKey.ts:7 | the value count in closed form; it is never 1 modulo 4; with its padding it is four per started group of three bytes, a multiple of four |
| Base64.Btoa | src/hooks/useApiKey.ts:7 | the encoding is four characters for every started group of three bytes |
| Base64.DecodeSextets | src/hooks/useApiKey.ts:11 | decoding yields bytes, and the count is `DecodedLength`: three per four values, one or two for a final two or three, none for a lone value |
| Base64.DecodedLengthClosed | src/hooks/useApiKey.ts:11 | for a value count not 1 modulo 4, the byte count is three per full group plus one less than the leftover values |
| Base64.StripWhitespace | src/hooks/useApiKey.ts:11 | no ASCII whitespace is left |
| Base64.StripPadding | src/hooks/useApiKey.ts:11 | at most two characters are removed from the end, and all of them are `=` |
| Base64.Sextets | src/hooks/useApiKey.ts:11 | succeeds exactly when every character is in the alphabet, giving each character's value |
| Base64.Atob | src/hooks/useApiKey.ts:11 | a decoded string holds only byte-valued characters |
| Base64.GroupRoundTrip | src/hooks/useApiKey.ts:7-11 | the four values of three bytes decode to those bytes |
| Base64.DecodeHead | src/hooks/useApiKey.ts:7-11 | a leading three-byte group decodes to itself ahead of the rest |
| Base64.DecodeEncodeTail | src/hooks/useApiKey.ts:7-11 | a final one- or two-byte group decodes to itself |
| Base64.DecodeEncode | src/hooks/useApiKey.ts:7-11 | decoding the unpadded values of an encoding gives the bytes back |
| Base64.StripWhitespaceKeeps | src/hooks/useApiKey.ts:11 | a text without ASCII whitespace is not changed by whitespace removal |
| Base64.StripWhitespaceKeepsChar | src/hooks/useApiKey.ts:11 | a character that is not whitespace survives whitespace removal |
| Base64.BtoaHasNoWhitespace | src/hooks/useApiKey.ts:7 | `btoa` never writes whitespace |
| Base64.CharsAreNotPadding | src/hooks/useApiKey.ts:7 | no character written for a 6-bit value is `=` |
| Base64.StripPaddingOf | src/hooks/useApiKey.ts:11 | `""`, `"="` or `"=="` after a text not ending in `=` is exactly what padding removal takes off |
| Base64.SextetsOfChars | src/hooks/useApiKey.ts:7-11 | reading back written characters gives the values |
| Base64.StripBtoaPadding | src/hooks/useApiKey.ts:7-11 | the padding `btoa` adds is exactly what `atob` strips |
| Base64.AtobBtoa | src/hooks/useApiKey.ts:7-11 | `atob(btoa(s)) == s` for every Latin-1 string |
| Base64.AtobRejectsForeign | src/hooks/useApiKey.ts:11-16 | a character that is neither whitespace, `=`, nor in the alphabet makes `atob` fail |
| Base64.VectorF | src/hooks/useApiKey.ts:7 | `btoa("f") == "Zg=="` (RFC 4648 section 10) |
| Base64.VectorFo | src/hooks/useApiKey.ts:7 | `btoa("fo") == "Zm8="` (RFC 4648 section 10) |
| Base64.VectorFoo | src/hooks/useApiKey.ts:7 | `btoa("foo") == "Zm9v"` (RFC 4648 section 10) |
| Base64.Rfc4648Vectors | src/hooks/useApiKey.ts:7 | the empty, one-, two- and three-byte vectors of RFC 4648 section 10 |
| ApiKey.Encode | src/hooks/useApiKey.ts:4-7 | the stored entry is whole four-character base64 groups, at least the 12 characters that encode the prefix `ats:v1:` |
| ApiKey.ReplacePrefixOf | src/hooks/useApiKey.ts:13 | removing the prefix from a text that starts with it leaves the rest |
| ApiKey.Decode | src/hooks/useApiKey.ts:9-17 | `""` when the value is not base64 or its text lacks the prefix; otherwise the text after the prefix |
| ApiKey.DecodeEncode | src/hooks/useApiKey.ts:7-17 | `decode(encode(v)) == v` for every Latin-1 key |
| ApiKey.DecodeNonBase64 | src/hooks/useApiKey.ts:10-16 | a value with a character foreign to base64 decodes to `""` without failing |
| ApiKey.DecodeWithoutPrefix | src/hooks/useApiKey.ts:12 | valid base64 whose text lacks the prefix decodes to `""` |
| ApiKey.InitialKey | src/hooks/useApiKey.ts:19-22 | the key the hook starts with: `decode` of a non-empty stored entry, otherwise `""`; `ReloadAfterSet` states that it recovers a key that was set |
| ApiKey.StoredFor | src/hooks/useApiKey.ts:28-33 | the entry is removed exactly when the key is empty |
| ApiKey.ReloadAfterSet | src/hooks/useApiKey.ts:19-34 | a key that was set is the key the next session starts with |
| ApiKey.ApiKeyStore.constructor | src/hooks/useApiKey.ts:19-22 | the initial key is the decoded entry when it is non-empty, otherwise `""` |
| ApiKey.ApiKeyStore.SetApiKey | src/hooks/useApiKey.ts:24-34 | the key becomes `value`; the entry is removed for `""` and holds `encode(value)` otherwise, and decodes to the key |
| App.Hydrate | src/App.tsx:19-29 | a missing or empty snapshot, or one that fails to parse or validate, gives the default resume; a valid one gives exactly the validated resume; the result is always well typed |
| App.HydrateFallsBack | src/App.tsx:22-26 | a snapshot that fails to parse or to validate yields the default resume |
| App.HydrateAfterSave | src/App.tsx:19-33 | the snapshot written for a well-typed resume hydrates back to that resume, if `JSON.parse` inverts `JSON.stringify` |
| App.ResumeStore.constructor | src/App.tsx:19-33 | the store starts with the hydrated resume, and the first effect run writes its snapshot |
| App.ResumeStore.Persist | src/App.tsx:31-33 | the entry becomes the serialisation of the current resume, which is unchanged |
| App.ResumeStore.SetResumeData | src/App.tsx:31-33 | after a change the resume is the new one and the entry holds its serialisation |

## Left out

- The remote completion call (`src/services/ats.service.ts:281-297`) is HTTP I/O. It is the parameter `complete`, and its failures propagate unchanged.
- PDF text extraction (`extractTextFromPDF`) is a foreign library. Its result is the parameter `pdfText`.
- The scoring rubric (`src/services/ats.service.ts:31-191`) is instructions that the remote model follows. It is the parameter `rubric`, and only its place after the inputs is modelled.
- The JSON Schema text (`ResumeSchema.toJSONSchema()` printed by `JSON.stringify`) is library output. It is the parameter `schemaText`.
- `JSON.parse` and `JSON.stringify` are runtime library code. They are the parameters `parse` and `stringify`. `App.HydrateAfterSave` assumes that parse inverts stringify for a resume's JSON.
- JSON numbers are integers in `Json.Json`. The resume schema has no numeric field, so this does not affect validation. The scoring reply is different: it is parsed but never validated, and is returned as it is (`src/services/ats.service.ts:196-206`). A fractional score in that reply, such as `72.5`, cannot be represented in the model, so `AtsService.AnalyzeResume` covers only replies whose numbers are integers.
- Schema errors are the first issue only (path and expected type). The library's message texts are not modelled, because every caller discards them.
- The `!resumeData` guard (`src/services/ats.service.ts:11-13`) is left out. A typed resume value is never falsy.
- Fresh section ids (`nanoid`) are random. They are the parameter `id` of `ResumeForm.AddSection`.
- ApiKey.Encode: requires a Latin-1 key. `btoa` throws on characters above U+00FF, and that exception is not modelled.
- ApiKey.ApiKeyStore.SetApiKey: requires a Latin-1 key, for the same reason. For other keys the source updates the key state and then throws from `btoa` before writing the entry.
- ResumeForm.ApplyPatch: requires a patch one of the item's own inputs sends. The object spread would also accept an arbitrary key, but the form never sends one.
- ResumeForm.UpdateSection: requires an in-range index. In JavaScript an out-of-range index would grow the array, but the form only passes indices of existing sections.
- ResumeForm.PatchItem: requires in-range indices. The form only patches items it has rendered.
- SectionText.ItemText: renders an item by its own shape, while `sectionToText` switches on the section's `type` and reads each item as that type (`src/types.ts:97`). The two agree on every well-typed section, and every resume the app holds is well typed (`Types.Validate` ensures it, the editor operations keep it). On an ill-typed section the source would print `undefined` fields or throw, and that is not modelled.
- Session and local storage are each one `Option<string>` field. The storage key names are not modelled.
- Strings are sequences of Unicode scalar values, not UTF-16 code units. No operation here depends on code-unit counts.
- Not modelled:
  - rendering and JSX (`Resume.tsx`, `ResumeDisplay.tsx`, `ResultDisplay.tsx`);
  - loading flags, `setError` plumbing beyond the messages in `ResumeForm.AutofillOutcome`, and `console.error` logging;
  - async sequencing.
