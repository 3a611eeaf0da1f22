# Clinical extraction service: a verified model

This project models the core of the clinical extraction service in Dafny, from
`backend/extraction_service.py`. The service takes a consultation transcript through
these steps:

- `clean_transcript` normalises it.
- `generate_prompt` puts it into a prompt template.
- `extract_clinical_data` obtains a reply. The reply comes from the canned
  `generate_mock_response`, from the primary language-model client (OpenAI), or from the
  secondary client (Claude) as a fallback.
- `structure_output` and `parse_section` cut the section between the
  `=== CLINICAL DATA EXTRACTION ===` and `=== END OF EXTRACTION ===` markers out of the
  reply and turn its numbered blocks into records. The regular expression finds the markers
  anywhere in the text, not only as whole lines.
- `validate_extraction` checks the result.

`process_transcript` chains these steps and never raises: every error becomes a failure
value.

The modules follow the pipeline:

- `Text` (`text.dfy`) holds the Python string operations the service relies on, restricted
  to ASCII: `strip`, `rstrip`, `replace`, `splitlines`, `lower` and `in`. It also holds
  `Find`, the leftmost literal search that the `re.search` of `structure_output`
  (backend/extraction_service.py:143) performs for its two markers.
- `Transcript` (`transcript.dfy`) holds `clean_transcript` and `generate_prompt`.
- `Parser` (`parser.dfy`) holds `structure_output`, the section search and `parse_section`.
  `ParseSection` takes the stripped non-blank lines and runs `ScanLines`, a method with the
  source's loop and `current_item` cursor. The loop is proved equal to the function `Scan`,
  and the lemmas about the parser's output are stated on `Scan`.
- `Reply` (`reply.dfy`) gives the layout of a reply that the parser reads, and proves that
  rendering records in this layout and parsing them back returns the same records.
- `Validator` (`validator.dfy`) holds `validate_extraction`: a method with the source's loop
  over the required names, proved equal to the function `Validated`.
- `Service` (`service.dfy`) holds the canned reply, the choice of provider in
  `extract_clinical_data`, and `process_transcript`.

The two clients are a parameter `complete: (Provider, string) -> Completion`. For a prompt,
each client either returns the reply text or raises with a message. Two booleans record
whether each API key was set.

Some consequences of the code that are easy to miss:

- `clean_transcript` makes one left-to-right `"  "` → `" "` pass
  (backend/extraction_service.py:83). A run of n blanks therefore becomes ⌈n/2⌉ spaces
  rather than one.
- `clean_transcript` turns only `\n`, `\r` and `\t` into spaces and filters out no
  non-printable character. Apart from the whitespace stripped at the ends, the halved pairs
  of spaces and the cut after 50 000 characters, every character is kept
  (backend/extraction_service.py:79-84).
- The input check `not transcript` rejects only the empty string
  (backend/extraction_service.py:45). A transcript of whitespace only passes it.
- The canned reply has four numbered categories (backend/extraction_service.py:194-217).

## Model

| member | source | states |
|---|---|---|
| Text.Strip | backend/extraction_service.py:79 | `strip()`: the result is the text after the leading whitespace, everything cut from the end is whitespace, and the result neither starts nor ends with whitespace |
| Text.StripPadded | backend/extraction_service.py:158 | stripping spaces put in front of trimmed text gives that text back exactly |
| Text.TrimEndChar | backend/extraction_service.py:167 | `rstrip(":")`: the result is a prefix, everything removed is a colon, and the result does not end in a colon |
| Text.TrimEndCharLast | backend/extraction_service.py:167 | `rstrip(":")` removes exactly one added colon from text that does not already end in one |
| Text.Find | backend/extraction_service.py:143-146 | the index found is an occurrence with no occurrence before it, and the result is None exactly when there is no occurrence |
| Text.ReplaceAllAbsent | backend/extraction_service.py:83 | `replace` leaves text without the pattern unchanged |
| Text.ReplaceAllFirst | backend/extraction_service.py:87 | `replace` copies the text before the first occurrence, substitutes that occurrence and resumes after it without rescanning the replacement |
| Text.ReplaceOneChar | backend/extraction_service.py:80-82 | `replace` of one character by another keeps the length and maps each position on its own: the old character becomes the new one and every other character is kept |
| Text.ReplaceAll | backend/extraction_service.py:80-87 | `str.replace`, which the cleaning and the prompt rely on: every character of the result comes from the text or the replacement; ReplaceAllAbsent, ReplaceAllFirst and ReplaceOneChar pin down the result itself |
| Text.SplitLines | backend/extraction_service.py:158 | `splitlines()` yields lines that contain no line break; SplitBreak, SplitCRLF and SplitLast state where it cuts |
| Text.SplitBreak | backend/extraction_service.py:158 | each single line-break character (`\n`, `\v`, `\f`, `\r`, `\x1c` to `\x1e`) ends a line and is dropped, except a `\r` directly followed by `\n` |
| Text.SplitCRLF | backend/extraction_service.py:158 | `\r\n` ends one line, not two, and is dropped |
| Text.SplitLast | backend/extraction_service.py:158 | a last line without a break after it is still a line, kept whole |
| Text.SplitTerminated | backend/extraction_service.py:158 | `splitlines()` gives back exactly the lines of a text in which each line is followed by a newline |
| Text.Lower | backend/extraction_service.py:184 | `lower()` keeps the length and lower-cases each character |
| Transcript.Blanked | backend/extraction_service.py:80-82 | each `\n`, `\r` and `\t` becomes a space, every other character is kept, and none of the three is left |
| Transcript.BlankedIsThreeReplaces | backend/extraction_service.py:80-82 | blanking equals the three chained `replace` calls for `\n`, `\r` and `\t`, each the general `replace` of the Text module |
| Transcript.Cap | backend/extraction_service.py:84 | `[:50000]` keeps a prefix whose length is the smaller of the length and 50 000 |
| Transcript.CleanTranscript | backend/extraction_service.py:77-84 | the result is at most 50 000 characters long, exactly min(n, 50 000) where n is the length of the stripped, blanked and halved text, and a prefix of that text; it holds no `\n`, `\r` or `\t` and does not start with whitespace |
| Transcript.CleanIsReplaceChain | backend/extraction_service.py:77-84 | cleaning equals the source's chain: `strip`, then the four `replace` calls in order, each the general `replace`, then the cut to 50 000 characters |
| Transcript.HalveRun | backend/extraction_service.py:83 | the `"  "` pass turns a run of n spaces before a non-space into ⌈n/2⌉ spaces |
| Transcript.HalveSplit | backend/extraction_service.py:83 | the pass acts on each side of a cut that follows a non-space separately |
| Transcript.HalveSpacesFirst | backend/extraction_service.py:83 | the pass never changes a first character that is not a space |
| Transcript.InteriorRunHalved | backend/extraction_service.py:79-84 | for any transcript whose stripped text is a, a run of n blank characters (space, `\n`, `\r`, `\t`) and b, with a and b not blank at the run, the run becomes exactly ⌈n/2⌉ spaces, not one, between the cleaned a and b |
| Transcript.CleanAroundRun | backend/extraction_service.py:79-84 | any transcript whose stripped and blanked text is x, a run of n spaces and y (x ending and y starting with a non-space) cleans to the first 50 000 characters of halved x, ⌈n/2⌉ spaces and halved y |
| Transcript.PaddedRunHalved | backend/extraction_service.py:79-84 | `" a  b\n"` cleans to `"a b"`: the ends are stripped first and the inner pair is halved |
| Transcript.HalveSpaces | backend/extraction_service.py:83 | the `replace("  ", " ")` pass; HalveSpacesIsReplace proves it equals the general `replace`, HalveSpacesChars that it never lengthens the text or adds a character, HalveRun that a run of n spaces becomes ⌈n/2⌉ |
| Transcript.Normalized | backend/extraction_service.py:79-83 | the stripped, blanked and halved transcript before the cut; CleanIsReplaceChain proves it is the source's `strip` and four `replace` calls |
| Transcript.HalveSpacesIsReplace | backend/extraction_service.py:83 | the left-to-right pair-halving pass equals `replace("  ", " ")`: every non-overlapping pair of spaces, scanned from the left, becomes one space |
| Transcript.HalveSpacesChars | backend/extraction_service.py:83 | the pass never lengthens the text and adds no character that was not already there |
| Transcript.RunsHalvedNotCollapsed | backend/extraction_service.py:83 | `"a    b"` cleans to `"a  b"`, and cleaning that again gives `"a b"`: cleaning is not idempotent |
| Transcript.WhitespaceOnlyCleansToEmpty | backend/extraction_service.py:79 | a transcript of whitespace only cleans to the empty string |
| Transcript.LongTranscriptTruncated | backend/extraction_service.py:84 | a long transcript with no whitespace is cut to exactly its first 50 000 characters |
| Transcript.GeneratePrompt | backend/extraction_service.py:86-87 | every character of the prompt comes from the template or the transcript |
| Transcript.PromptWithoutPlaceholder | backend/extraction_service.py:87 | a template without `{{TRANSCRIPT}}` is sent unchanged and the transcript is dropped |
| Transcript.PromptSinglePlaceholder | backend/extraction_service.py:87 | with one placeholder, the transcript lands verbatim in its place, even when the transcript itself contains the placeholder |
| Parser.Categories | backend/extraction_service.py:152 | `categoriesFound` has one name per record, in record order |
| Parser.DigitRun | backend/extraction_service.py:163 | the count of leading ASCII digits: all counted characters are digits and the next one is not |
| Parser.IsHeader | backend/extraction_service.py:163 | `re.match(r"^\d+\.", line)`: at least one leading digit, then a dot, as counted by DigitRun; HeaderNameOfLine shows that every `N. category:` line is one |
| Parser.IsBullet | backend/extraction_service.py:170 | `line.startswith("-")`; StrippedBullet shows that every `- detail` line is one and is not a header |
| Parser.HeaderName | backend/extraction_service.py:163-167 | the category of a header line is the slice of the line after the digits and the dot, with only whitespace skipped before it and only colons cut after it; it does not start with whitespace and does not end with a colon |
| Parser.BulletText | backend/extraction_service.py:171 | the detail of a bullet line is the slice of the line after the dash, with only whitespace skipped before it and cut after it; it neither starts nor ends with whitespace |
| Parser.NonBlank | backend/extraction_service.py:158 | the list comprehension keeps at most as many lines as given, each non-empty with no whitespace at either end, and keeps none exactly when every line strips to empty; NonBlankSingle and NonBlankAppend fix which lines it keeps, in order |
| Parser.NonBlankSingle | backend/extraction_service.py:158 | one line gives `[l.strip()]` when that is not empty and nothing otherwise |
| Parser.NonBlankAppend | backend/extraction_service.py:158 | the comprehension distributes over concatenation, so each line contributes on its own and in order; with NonBlankSingle this determines the result for every input |
| Parser.ParseSection | backend/extraction_service.py:157-176 | `parse_section` returns exactly `Scan` of the stripped non-blank lines of the section |
| Parser.ScanLines | backend/extraction_service.py:159-176 | the loop with the `current_item` cursor and the final append returns exactly `Scan` of its lines |
| Parser.Scan | backend/extraction_service.py:162-174 | the records the loop builds; ScanLines proves the loop equals it, and ScanCategories, ScanBlock, ScanNoHeader and ScanIgnores state what it returns |
| Parser.Step | backend/extraction_service.py:162-174 | one turn of the loop: a header starts a record, a bullet after a header adds a detail to the last record, any other line changes nothing; ScanBlock and ScanIgnores state its effect over a block |
| Parser.ScanCategories | backend/extraction_service.py:162-169 | the records are one per header line, in line order, each named after its header; equal names give separate records |
| Parser.ScanBlock | backend/extraction_service.py:162-174 | a header and the header-free lines after it make one record whose details are the texts of the bullet lines among them, in order; with no bullets the details are empty |
| Parser.ScanNoHeader | backend/extraction_service.py:170 | lines without a header give no records, so bullets before the first header are dropped |
| Parser.ScanIgnores | backend/extraction_service.py:162-171 | removing a line that is neither a header nor a bullet, or a bullet with no header before it, does not change the records |
| Parser.MarkedSection | backend/extraction_service.py:143-147 | the group of the `re.search` for the two markers; FirstSectionSpec and SectionFoundIfAnyPair state it, Reply.SectionBetweenMarkers shows it recovers the text between the markers |
| Parser.FirstSection | backend/extraction_service.py:143-147 | the search for any two markers; FirstSectionNeedsStart and FirstSectionSpec state when it succeeds and what it returns |
| Parser.SectionFrom | backend/extraction_service.py:144 | the lazy `(.*?)` after the start marker; SectionAfter states that it exists exactly when an end marker follows and stops at the first one |
| Parser.FirstSectionNeedsStart | backend/extraction_service.py:143-147 | without a start marker there is no section |
| Parser.FirstSectionSpec | backend/extraction_service.py:143-148 | after the first start marker, a section exists exactly when an end marker follows; it is the text up to the first such end marker, which is the lazy group of the regular expression |
| Parser.SectionAfter | backend/extraction_service.py:144 | from a given position, the section exists exactly when an end marker occurs later, and it stops at the first one |
| Parser.SectionFoundIfAnyPair | backend/extraction_service.py:143-147 | any start marker followed by an end marker guarantees a match |
| Parser.StructureOutput | backend/extraction_service.py:141-155 | no section gives no records, and a section gives `Scan` of its lines; `totalDataPoints` is the record count, `categoriesFound` the names and `confidenceScore` None |
| Reply.Decimal | backend/extraction_service.py:196 | the numeral of a block number is non-empty and all digits |
| Reply.BulletLines | backend/extraction_service.py:197-198 | one indented `- ` line per detail, in order |
| Reply.RenderRoundTrip | backend/extraction_service.py:141-176 | rendering records in the reply layout and parsing the text back gives the same records, for any records with single-line, `=`-free, trimmed texts |
| Reply.SectionBetweenMarkers | backend/extraction_service.py:143-148 | text without `=` placed between the two markers is exactly the section found |
| Reply.SectionBetween | backend/extraction_service.py:143-148 | the same for any markers and text that avoids the end marker's first character |
| Reply.ContentOfBody | backend/extraction_service.py:158 | the stripped non-blank lines of the blocks are the header lines and the `- detail` lines, in order |
| Reply.ScanContent | backend/extraction_service.py:162-174 | scanning those lines gives back the records |
| Reply.HeaderNameOfLine | backend/extraction_service.py:163-167 | an `N. category:` line is a header, and its category is recovered exactly |
| Reply.StrippedBullet | backend/extraction_service.py:170-171 | a `- detail` line is a bullet and not a header, and its detail is recovered exactly |
| Validator.Mentions | backend/extraction_service.py:184 | `any(req.lower() in f.lower() for f in found)`; StartsWithMentions and CapitalsMention show that letter case is ignored, WarningsForRequired that it decides each warning |
| Validator.MissingWarnings | backend/extraction_service.py:183-185 | the warnings of the loop over the required names; MissingWarningsExact and MissingWarningInjective state them, CheckRequired proves the loop returns them |
| Validator.MissingWarningsExact | backend/extraction_service.py:183-185 | every unmentioned name has its warning and every warning is for an unmentioned name; there are no more warnings than required names, and each name's warning occurs at most as often as the name is listed |
| Validator.MissingWarningInjective | backend/extraction_service.py:185 | two required names with the same warning text are the same name |
| Validator.Validated | backend/extraction_service.py:178-191 | `isValid` is false exactly when `totalDataPoints` is 0; `errors` is then exactly the no-data message and is empty otherwise; `warnings` is the list of missing-name warnings |
| Validator.ValidateExtraction | backend/extraction_service.py:178-191 | the method with the source's loop and in-place appends returns exactly `Validated` |
| Validator.CheckRequired | backend/extraction_service.py:183-185 | the loop appends exactly the missing-name warnings, in the order of the required names |
| Validator.WarningsForRequired | backend/extraction_service.py:180-185 | the warnings are the Chief Complaint warning and then the History of Present Illness warning, each present exactly when no category mentions the name |
| Validator.StartsWithMentions | backend/extraction_service.py:184 | a category whose first characters equal a required name up to letter case mentions it |
| Validator.LeadsIgnoringCase | backend/extraction_service.py:184 | the same, stated character by character: a category whose first characters lower-case to those of the name mentions it |
| Validator.CapitalsMention | backend/extraction_service.py:184 | a category written in capitals, `CHIEF COMPLAINT`, mentions the name `Chief Complaint` |
| Validator.ValidOutputIffRecords | backend/extraction_service.py:150-151 | a parsed reply validates exactly when it holds a record, and then has no errors |
| Service.MockResponse | backend/extraction_service.py:193-217 | the canned reply; MockIsRendered, MockParsed and MockValidated state its layout, its records and its validation |
| Service.MockIsRendered | backend/extraction_service.py:193-217 | the canned reply is the reply layout of the four mock records |
| Service.MockBlocks | backend/extraction_service.py:196-214 | each numbered block of the canned reply is the block of its record |
| Service.MockParsed | backend/extraction_service.py:193-217 | the canned reply parses back into exactly the four mock records |
| Service.MockValidated | backend/extraction_service.py:178-191 | the mock categories mention both required names, so validation passes with no warnings and no errors |
| Service.MockShape | backend/extraction_service.py:196-214 | the mock records are the four categories in this order, with 2, 6, 2 and 2 details |
| Service.ExtractClinicalData | backend/extraction_service.py:93-110 | mock mode returns the canned reply and calls no client; only configured clients are called, the primary first, each at most once; the secondary follows the primary only after the primary raised; with only the secondary key set, the secondary is called; the result is the last call's outcome; without mock, no client is called exactly when no key is set, and then the no-keys error is raised |
| Service.MethodOf | backend/extraction_service.py:62 | `options.get("method", "default")`; ProcessTranscript and MockScenario state that a success carries it as `extractionMethod` |
| Service.ProcessTranscript | backend/extraction_service.py:41-71 | a non-string or empty transcript fails with "Invalid transcript provided"; a success carries the cleaned length (at most 50 000), the requested method or "default", the validation of its data, validity exactly when records exist, and the record count |
| Service.ProcessFailsIffRaised | backend/extraction_service.py:44-71 | a non-empty transcript fails exactly when obtaining the reply raised, with that message; otherwise the data is the parsed reply |
| Service.NoKeysFailure | backend/extraction_service.py:107-110 | with no key and no mock, no client is called and the outcome is the no-keys failure |
| Service.FallbackUsesSecondary | backend/extraction_service.py:97-104 | with both keys set and a failing primary, the secondary's outcome is final, after calls to the primary and then the secondary |
| Service.SecondaryOnlyDirect | backend/extraction_service.py:107-108 | with only the secondary key set, the secondary alone answers the prompt: its error is the failure message and its reply is the parsed data |
| Service.PrimaryErrorReraised | backend/extraction_service.py:97-105 | with only the primary key set, the primary's error becomes the failure message |
| Service.OnlyPromptMatters | backend/extraction_service.py:48-51 | the outcome depends on the clients only through their answers to the one prompt built from the transcript |
| Service.MockScenario | backend/extraction_service.py:41-64 | in mock mode, whatever keys are set, any non-empty transcript succeeds with the four mock records, validation `(true, [], [])`, the cleaned length and the requested method |
| Service.WhitespaceOnlyAccepted | backend/extraction_service.py:45 | a whitespace-only transcript passes the input check: in mock mode it succeeds, with a cleaned length of 0 |

## Left out

- `backend/api.py`, all of it. It is HTTP routing, CORS, static files and an in-memory job
  table updated by a background task: I/O and concurrency, not extraction logic.
- `extract_with_openai` and `extract_with_claude` (backend/extraction_service.py:112-135)
  are network calls. They are replaced by the `complete` parameter, which returns a reply
  or raises with a message. It cannot express an OpenAI reply whose content is None. Such
  a reply does not raise, so the secondary client is not tried, and `structure_output(None)`
  then fails with a `TypeError` whose message becomes the failure.
- The constructor (backend/extraction_service.py:14, 17-35) reads the environment and
  `.env` and builds the clients. It is replaced by the two booleans of `Config`. Its
  startup messages are not modelled.
- The `processedAt` timestamps (backend/extraction_service.py:60, 70), the `print`
  logging and the `__main__` demo (backend/extraction_service.py:223-232) are not modelled.
- The text of `CLINICAL_EXTRACTION_PROMPT` and `CATEGORIES` comes from
  `prompt_clinical_extraction`, which is not part of this model. The template is the opaque
  string `Config.template`.
- Characters follow ASCII, not Unicode:
  - whitespace for `strip` and `\s` is space, `\t` to `\r` and `\x1c` to `\x1f`
  - the line breaks of `splitlines` are `\n`, `\v`, `\f`, `\r`, `\r\n` and `\x1c` to `\x1e`
  - `\d` is `0`-`9`
  - `lower()` changes only `A`-`Z`

  Python applies the Unicode versions of these rules.
- Service.ProcessTranscript: the `options` dictionary is modelled as a `mockResponse`
  boolean and an optional string `method`. Truthiness of other values is not modelled, and
  neither are `method` values that are not strings.
- Service.ProcessTranscript: the cases for a transcript argument that is not a string are
  all `NotStr`. Python's distinction between falsy and truthy non-strings is not kept,
  because both are rejected with the same message.
- Reply.RenderRoundTrip: the round trip is proved only for records whose texts contain no
  line break and no `=`, whose category does not start with whitespace or end with a colon,
  and whose details are non-empty with no whitespace at either end. Other records render
  to text that parses differently, and this model does not describe how.
