/** The extraction service's pipeline: the mock reply, the provider dispatch of
    extract_clinical_data and the never-raising process_transcript. The two language-model
    clients are a parameter `complete` that either returns the reply text or raises. */
module Service {
  import opened Text
  import opened Transcript
  import opened Parser
  import opened Reply
  import opened Validator

  /** The two clients, in the order they are tried (OpenAI, then Claude). */
  datatype Provider = Primary | Secondary

  /** What a client call does with a prompt: return the reply text or raise with a message. */
  datatype Completion = Returned(text: string) | Raised(message: string)

  /** The prompt template and which API keys were set when the service was built. */
  datatype Config = Config(template: string, primaryConfigured: bool, secondaryConfigured: bool)

  /** The `options` dictionary: `mockResponse` and, when present, `method`. */
  datatype Options = Options(mockResponse: bool, methodName: Option<string>)

  /** The `transcript` argument: a string, or a value of another type. */
  datatype Argument = Str(text: string) | NotStr

  /** The completion extract_clinical_data ends with and the clients it called, in order. */
  datatype Attempt = Attempt(result: Completion, calls: seq<Provider>)

  /** What process_transcript returns; the timestamps are not modelled. */
  datatype Outcome =
    | Success(data: Structured, validation: Validation, transcriptLength: nat, extractionMethod: string)
    | Failure(error: string)

  const NoKeysMessage := "No API keys configured. Set OPENAI_API_KEY or CLAUDE_API_KEY."
  const InvalidTranscript := "Invalid transcript provided"
  const DefaultMethod := "default"

  predicate Configured(config: Config, p: Provider) {
    match p
    case Primary => config.primaryConfigured
    case Secondary => config.secondaryConfigured
  }

  // ---------------------------------------------------------------------------
  // generate_mock_response
  // ---------------------------------------------------------------------------

  /** The four categories of the canned reply. */
  const MockRecords: seq<Record> := [ChiefComplaint, PresentIllness, Medications, MedicalHistory]

  const ChiefComplaint := Record("Chief Complaint/Reason for Visit", [
    "Patient presents with chest pain for 2 days",
    "Describes pain as \"sharp and stabbing\""])

  const PresentIllness := Record("History of Present Illness (HPI)", [
    "Onset: 2 days ago, sudden onset",
    "Character: Sharp, stabbing pain",
    "Location: Left side of chest",
    "Severity: 7/10 on pain scale",
    "Aggravating factors: Deep breathing, movement",
    "Associated symptoms: Shortness of breath"])

  const Medications := Record("Current Medications", [
    "Lisinopril 10mg daily for hypertension",
    "Metformin 500mg twice daily for diabetes"])

  const MedicalHistory := Record("Past Medical History", [
    "Hypertension diagnosed 5 years ago",
    "Type 2 diabetes diagnosed 3 years ago"])

  /** The lines of the canned reply, block by block, as the literal in generate_mock_response
      has them; each bullet line is written as its three-space, dash indent and the detail. */
  const MockLines: seq<string> :=
    ["=== CLINICAL DATA EXTRACTION ==="]
    + ChiefComplaintLines + PresentIllnessLines + MedicationLines + MedicalHistoryLines
    + ["", "=== END OF EXTRACTION ==="]

  const ChiefComplaintLines: seq<string> := [
    "",
    "1. Chief Complaint/Reason for Visit:",
    "   - " + "Patient presents with chest pain for 2 days",
    "   - " + "Describes pain as \"sharp and stabbing\""]

  const PresentIllnessLines: seq<string> := [
    "",
    "2. History of Present Illness (HPI):",
    "   - " + "Onset: 2 days ago, sudden onset",
    "   - " + "Character: Sharp, stabbing pain",
    "   - " + "Location: Left side of chest",
    "   - " + "Severity: 7/10 on pain scale",
    "   - " + "Aggravating factors: Deep breathing, movement",
    "   - " + "Associated symptoms: Shortness of breath"]

  const MedicationLines: seq<string> := [
    "",
    "3. Current Medications:",
    "   - " + "Lisinopril 10mg daily for hypertension",
    "   - " + "Metformin 500mg twice daily for diabetes"]

  const MedicalHistoryLines: seq<string> := [
    "",
    "4. Past Medical History:",
    "   - " + "Hypertension diagnosed 5 years ago",
    "   - " + "Type 2 diabetes diagnosed 3 years ago"]

  /** generate_mock_response */
  function MockResponse(): string {
    Terminated(MockLines)
  }

  /** The canned reply is the layout of the four mock records. */
  lemma {:induction false} MockIsRendered()
    ensures MockResponse() == Render(MockRecords)
  {
    MockBody();
    var c, p, m, h := ChiefComplaintLines, PresentIllnessLines, MedicationLines, MedicalHistoryLines;
    var s, e := [StartMarker], ["", EndMarker];
    assert s + (c + p + m + h) + e == s + c + p + m + h + e;
  }

  lemma {:induction false} MockBody()
    ensures BodyLines(MockRecords)
         == ChiefComplaintLines + PresentIllnessLines + MedicationLines + MedicalHistoryLines
  {
    var r0, r1, r2, r3 := ChiefComplaint, PresentIllness, Medications, MedicalHistory;
    BodyLinesSnoc([], r0);
    BodyLinesSnoc([r0], r1);
    BodyLinesSnoc([r0, r1], r2);
    BodyLinesSnoc([r0, r1, r2], r3);
    assert [] + [r0] == [r0] && [r0] + [r1] == [r0, r1] && [r0, r1] + [r2] == [r0, r1, r2];
    assert [r0, r1, r2] + [r3] == MockRecords;
    MockBlocks();
    assert [] + ChiefComplaintLines == ChiefComplaintLines;
  }

  lemma {:induction false} MockBlocks()
    ensures Block(1, ChiefComplaint) == ChiefComplaintLines
    ensures Block(2, PresentIllness) == PresentIllnessLines
    ensures Block(3, Medications) == MedicationLines
    ensures Block(4, MedicalHistory) == MedicalHistoryLines
  {
    ChiefComplaintHeader();
    PresentIllnessHeader();
    MedicationsHeader();
    MedicalHistoryHeader();
  }

  // The header lines of the canned reply are the numbered categories. The solver matches a
  // long literal against a concatenation character by character, so each header is first cut
  // into its number, category and colon by a lemma of its own.

  lemma {:induction false} ChiefComplaintHeader()
    ensures HeaderLine(1, ChiefComplaint.category) == "1. Chief Complaint/Reason for Visit:"
  {
    assert Decimal(1) == "1";
    ChiefComplaintHeaderCut();
  }

  lemma {:induction false} ChiefComplaintHeaderCut()
    ensures "1. Chief Complaint/Reason for Visit:" == "1. " + "Chief Complaint/Reason for Visit" + ":"
  {
  }

  lemma {:induction false} PresentIllnessHeader()
    ensures HeaderLine(2, PresentIllness.category) == "2. History of Present Illness (HPI):"
  {
    assert Decimal(2) == "2";
    PresentIllnessHeaderCut();
  }

  lemma {:induction false} PresentIllnessHeaderCut()
    ensures "2. History of Present Illness (HPI):" == "2. " + "History of Present Illness (HPI)" + ":"
  {
  }

  lemma {:induction false} MedicationsHeader()
    ensures HeaderLine(3, Medications.category) == "3. Current Medications:"
  {
    assert Decimal(3) == "3";
    MedicationsHeaderCut();
  }

  lemma {:induction false} MedicationsHeaderCut()
    ensures "3. Current Medications:" == "3. " + "Current Medications" + ":"
  {
  }

  lemma {:induction false} MedicalHistoryHeader()
    ensures HeaderLine(4, MedicalHistory.category) == "4. Past Medical History:"
  {
    assert Decimal(4) == "4";
    MedicalHistoryHeaderCut();
  }

  lemma {:induction false} MedicalHistoryHeaderCut()
    ensures "4. Past Medical History:" == "4. " + "Past Medical History" + ":"
  {
  }

  // Each mock record can be laid out and parsed back. The checks over the characters of the
  // literals are costly for the solver, so they are spread over small lemmas.

  /** A string of visible characters without '=' stays on its line and out of the markers. */
  lemma {:induction false} InlineOfVisible(s: string)
    requires forall k :: 0 <= k < |s| ==> ' ' <= s[k] && s[k] != '='
    ensures Inline(s)
  {
  }

  lemma {:induction false} PlainOfVisible(d: string)
    requires d != [] && ' ' < d[0] && ' ' < d[|d| - 1]
    requires forall k :: 0 <= k < |d| ==> ' ' <= d[k] && d[k] != '='
    ensures Plain(d)
  {
  }

  lemma {:induction false} ChiefComplaintRenderable()
    ensures Renderable(ChiefComplaint)
  {
    InlineOfVisible("Chief Complaint/Reason for Visit");
    ChiefComplaintDetails();
  }

  lemma {:induction false} ChiefComplaintDetails()
    ensures Plain("Patient presents with chest pain for 2 days")
    ensures Plain("Describes pain as \"sharp and stabbing\"")
  {
    PlainOfVisible("Patient presents with chest pain for 2 days");
    PlainOfVisible("Describes pain as \"sharp and stabbing\"");
  }

  lemma {:induction false} PresentIllnessRenderable()
    ensures Renderable(PresentIllness)
  {
    InlineOfVisible("History of Present Illness (HPI)");
    OnsetDetails();
    LocationDetails();
    AggravatingDetails();
    AssociatedDetails();
  }

  lemma {:induction false} OnsetDetails()
    ensures Plain("Onset: 2 days ago, sudden onset")
    ensures Plain("Character: Sharp, stabbing pain")
  {
    PlainOfVisible("Onset: 2 days ago, sudden onset");
    PlainOfVisible("Character: Sharp, stabbing pain");
  }

  lemma {:induction false} LocationDetails()
    ensures Plain("Location: Left side of chest")
    ensures Plain("Severity: 7/10 on pain scale")
  {
    PlainOfVisible("Location: Left side of chest");
    PlainOfVisible("Severity: 7/10 on pain scale");
  }

  lemma {:induction false} AggravatingDetails()
    ensures Plain("Aggravating factors: Deep breathing, movement")
  {
    AggravatingSplit();
    PlainOfVisible("Aggravating factors: " + "Deep breathing, movement");
  }

  lemma {:induction false} AssociatedDetails()
    ensures Plain("Associated symptoms: Shortness of breath")
  {
    PlainOfVisible("Associated symptoms: Shortness of breath");
  }

  /** The longest detail, cut where the solver can check its characters in two halves. */
  lemma {:induction false} AggravatingSplit()
    ensures "Aggravating factors: Deep breathing, movement"
         == "Aggravating factors: " + "Deep breathing, movement"
  {
  }

  lemma {:induction false} MedicationsRenderable()
    ensures Renderable(Medications)
  {
    InlineOfVisible("Current Medications");
    MedicationsDetails();
  }

  lemma {:induction false} MedicationsDetails()
    ensures Plain("Lisinopril 10mg daily for hypertension")
    ensures Plain("Metformin 500mg twice daily for diabetes")
  {
    PlainOfVisible("Lisinopril 10mg daily for hypertension");
    PlainOfVisible("Metformin 500mg twice daily for diabetes");
  }

  lemma {:induction false} MedicalHistoryRenderable()
    ensures Renderable(MedicalHistory)
  {
    InlineOfVisible("Past Medical History");
    MedicalHistoryDetails();
  }

  lemma {:induction false} MedicalHistoryDetails()
    ensures Plain("Hypertension diagnosed 5 years ago")
    ensures Plain("Type 2 diabetes diagnosed 3 years ago")
  {
    PlainOfVisible("Hypertension diagnosed 5 years ago");
    PlainOfVisible("Type 2 diabetes diagnosed 3 years ago");
  }

  /** Every mock record survives the layout. */
  lemma {:induction false} MockRenderable()
    ensures forall i :: 0 <= i < |MockRecords| ==> Renderable(MockRecords[i])
  {
    ChiefComplaintRenderable();
    PresentIllnessRenderable();
    MedicationsRenderable();
    MedicalHistoryRenderable();
  }

  /** The canned reply parses back into the four mock records. */
  lemma {:induction false} MockParsed()
    ensures StructureOutput(MockResponse()).categories == MockRecords
  {
    MockIsRendered();
    MockRenderable();
    RenderRoundTrip(MockRecords);
  }

  /** The mock categories mention both required names, so validation warns about nothing. */
  lemma {:induction false} MockValidated(s: Structured)
    requires s.categories == MockRecords && s.summary.totalDataPoints == 4
    ensures Validated(s) == Validation(true, [], [])
  {
    var found := Categories(MockRecords);
    MockShape();
    MockNamesLead();
    assert found[0][..|"Chief Complaint"|] == "Chief Complaint";
    StartsWithMentions(found, 0, "Chief Complaint");
    assert found[1][..|"History of Present Illness"|] == "History of Present Illness";
    StartsWithMentions(found, 1, "History of Present Illness");
    WarningsForRequired(found);
  }

  // ---------------------------------------------------------------------------
  // extract_clinical_data
  // ---------------------------------------------------------------------------

  /** extract_clinical_data: the canned reply when asked for it; otherwise the primary client,
      falling back to the secondary one when the primary raises and a secondary key is set; the
      secondary client alone when only its key is set; and an error when neither key is set. */
  function ExtractClinicalData(config: Config, options: Options, prompt: string,
                               complete: (Provider, string) -> Completion): (a: Attempt)
    ensures options.mockResponse ==> a == Attempt(Returned(MockResponse()), [])
    ensures forall i :: 0 <= i < |a.calls| ==> Configured(config, a.calls[i])
    ensures a.calls in {[], [Primary], [Secondary], [Primary, Secondary]}
    ensures !options.mockResponse && config.primaryConfigured ==> |a.calls| > 0 && a.calls[0] == Primary
    ensures a.calls != [] ==> a.result == complete(a.calls[|a.calls| - 1], prompt)
    ensures |a.calls| == 2 ==> complete(Primary, prompt).Raised?
    ensures a.calls == [Primary] && complete(Primary, prompt).Raised? ==> !config.secondaryConfigured
    ensures !options.mockResponse && a.calls == [] ==> a.result == Raised(NoKeysMessage)
    ensures !options.mockResponse && a.calls == []
            ==> !config.primaryConfigured && !config.secondaryConfigured
    ensures !options.mockResponse && !config.primaryConfigured && config.secondaryConfigured
            ==> a.calls == [Secondary]
  {
    if options.mockResponse then Attempt(Returned(MockResponse()), [])
    else if config.primaryConfigured then
      match complete(Primary, prompt)
      case Returned(text) => Attempt(Returned(text), [Primary])
      case Raised(message) =>
        if config.secondaryConfigured then Attempt(complete(Secondary, prompt), [Primary, Secondary])
        else Attempt(Raised(message), [Primary])
    else if config.secondaryConfigured then Attempt(complete(Secondary, prompt), [Secondary])
    else Attempt(Raised(NoKeysMessage), [])
  }

  // ---------------------------------------------------------------------------
  // process_transcript
  // ---------------------------------------------------------------------------

  /** `options.get("method", "default")` */
  function MethodOf(options: Options): string {
    match options.methodName
    case Some(m) => m
    case None => DefaultMethod
  }

  /** process_transcript: reject a missing, empty or non-string transcript; otherwise clean it,
      build the prompt, obtain the reply, parse and validate it. Anything raised on the way
      becomes a failure carrying the message. */
  function ProcessTranscript(config: Config, options: Options, transcript: Argument,
                             complete: (Provider, string) -> Completion): (r: Outcome)
    ensures transcript == NotStr || transcript == Str("") ==> r == Failure(InvalidTranscript)
    ensures r.Success? ==> transcript.Str? && transcript.text != ""
    ensures r.Success? ==> r.transcriptLength == |CleanTranscript(transcript.text)| <= MaxLength
    ensures r.Success? ==> r.extractionMethod == MethodOf(options)
    ensures r.Success? ==> r.validation == Validated(r.data)
    ensures r.Success? ==> (r.validation.isValid <==> r.data.categories != [])
    ensures r.Success? ==> r.data.summary.totalDataPoints == |r.data.categories|
  {
    match transcript
    case NotStr => Failure(InvalidTranscript)
    case Str(t) =>
      if t == "" then Failure(InvalidTranscript)
      else
        var cleaned := CleanTranscript(t);
        var prompt := GeneratePrompt(config.template, cleaned);
        match ExtractClinicalData(config, options, prompt, complete).result
        case Raised(message) => Failure(message)
        case Returned(text) =>
          var data := StructureOutput(text);
          Success(data, Validated(data), |cleaned|, MethodOf(options))
  }

  /** The prompt process_transcript sends for a transcript string. */
  function PromptFor(config: Config, t: string): string {
    GeneratePrompt(config.template, CleanTranscript(t))
  }

  /** A non-empty transcript fails exactly when the reply could not be obtained, and then with
      the message that was raised; otherwise the outcome is the parsed and validated reply. */
  lemma {:induction false} ProcessFailsIffRaised(config: Config, options: Options, t: string,
                              complete: (Provider, string) -> Completion)
    requires t != ""
    ensures var a := ExtractClinicalData(config, options, PromptFor(config, t), complete);
            && (ProcessTranscript(config, options, Str(t), complete).Failure? <==> a.result.Raised?)
            && (a.result.Raised? ==> ProcessTranscript(config, options, Str(t), complete) == Failure(a.result.message))
            && (a.result.Returned? ==> ProcessTranscript(config, options, Str(t), complete).data == StructureOutput(a.result.text))
  {
  }

  /** Neither key set and no mock requested: every non-empty transcript fails with the
      configuration error and no client is called. */
  lemma {:induction false} NoKeysFailure(config: Config, options: Options, t: string,
                      complete: (Provider, string) -> Completion)
    requires t != "" && !options.mockResponse
    requires !config.primaryConfigured && !config.secondaryConfigured
    ensures ProcessTranscript(config, options, Str(t), complete) == Failure(NoKeysMessage)
    ensures ExtractClinicalData(config, options, PromptFor(config, t), complete).calls == []
  {
  }

  /** With both keys set, a failing primary client is replaced by the secondary one, whose
      outcome (reply or error) is final. */
  lemma {:induction false} FallbackUsesSecondary(config: Config, options: Options, prompt: string,
                              complete: (Provider, string) -> Completion)
    requires !options.mockResponse && config.primaryConfigured && config.secondaryConfigured
    requires complete(Primary, prompt).Raised?
    ensures ExtractClinicalData(config, options, prompt, complete)
         == Attempt(complete(Secondary, prompt), [Primary, Secondary])
  {
  }

  /** With only the secondary key set, the secondary client answers the prompt directly: its
      error is the failure message and its reply is what gets parsed. */
  lemma {:induction false} SecondaryOnlyDirect(config: Config, options: Options, t: string,
                            complete: (Provider, string) -> Completion)
    requires t != "" && !options.mockResponse
    requires !config.primaryConfigured && config.secondaryConfigured
    ensures ExtractClinicalData(config, options, PromptFor(config, t), complete)
         == Attempt(complete(Secondary, PromptFor(config, t)), [Secondary])
    ensures complete(Secondary, PromptFor(config, t)).Raised? ==>
              ProcessTranscript(config, options, Str(t), complete)
              == Failure(complete(Secondary, PromptFor(config, t)).message)
    ensures complete(Secondary, PromptFor(config, t)).Returned? ==>
              && ProcessTranscript(config, options, Str(t), complete).Success?
              && ProcessTranscript(config, options, Str(t), complete).data
                 == StructureOutput(complete(Secondary, PromptFor(config, t)).text)
  {
  }

  /** With only the primary key set, the primary client's error is re-raised and becomes the
      failure message. */
  lemma {:induction false} PrimaryErrorReraised(config: Config, options: Options, t: string,
                             complete: (Provider, string) -> Completion)
    requires t != "" && !options.mockResponse
    requires config.primaryConfigured && !config.secondaryConfigured
    requires complete(Primary, PromptFor(config, t)).Raised?
    ensures ProcessTranscript(config, options, Str(t), complete)
         == Failure(complete(Primary, PromptFor(config, t)).message)
  {
  }

  /** The outcome depends on the clients only through their answers to the one prompt built
      from the transcript. */
  lemma {:induction false} OnlyPromptMatters(config: Config, options: Options, t: string,
                          c1: (Provider, string) -> Completion, c2: (Provider, string) -> Completion)
    requires forall p :: c1(p, PromptFor(config, t)) == c2(p, PromptFor(config, t))
    ensures ProcessTranscript(config, options, Str(t), c1) == ProcessTranscript(config, options, Str(t), c2)
  {
    var prompt := PromptFor(config, t);
    assert c1(Primary, prompt) == c2(Primary, prompt) && c1(Secondary, prompt) == c2(Secondary, prompt);
    assert ExtractClinicalData(config, options, prompt, c1) == ExtractClinicalData(config, options, prompt, c2);
  }

  /** Mock mode: whatever keys are set and whatever the clients would do, any non-empty
      transcript gives a success carrying the four canned records (MockShape), a validation
      without warnings or errors, the cleaned length and the requested method. */
  lemma {:induction false} MockScenario(config: Config, options: Options, t: string,
                     complete: (Provider, string) -> Completion)
    requires options.mockResponse && t != ""
    ensures ProcessTranscript(config, options, Str(t), complete)
         == Success(StructureOutput(MockResponse()), Validation(true, [], []),
                    |CleanTranscript(t)|, MethodOf(options))
    ensures StructureOutput(MockResponse()).categories == MockRecords
  {
    var data := StructureOutput(MockResponse());
    assert ProcessTranscript(config, options, Str(t), complete)
        == Success(data, Validated(data), |CleanTranscript(t)|, MethodOf(options));
    MockParsed();
    MockValidated(data);
  }

  /** The first two mock categories begin with the two names validation requires. */
  lemma {:induction false} MockNamesLead()
    ensures "Chief Complaint/Reason for Visit" == "Chief Complaint" + "/Reason for Visit"
    ensures "History of Present Illness (HPI)" == "History of Present Illness" + " (HPI)"
  {
  }

  /** The canned records: four categories, in this order, with 2, 6, 2 and 2 details. */
  lemma {:induction false} MockShape()
    ensures Categories(MockRecords)
         == ["Chief Complaint/Reason for Visit", "History of Present Illness (HPI)",
             "Current Medications", "Past Medical History"]
    ensures |MockRecords| == 4
    ensures |MockRecords[0].details| == 2 && |MockRecords[1].details| == 6
    ensures |MockRecords[2].details| == 2 && |MockRecords[3].details| == 2
  {
  }

  /** A transcript of whitespace only is not rejected: in mock mode it succeeds with a
      cleaned length of zero. */
  lemma {:induction false} WhitespaceOnlyAccepted(config: Config, options: Options, t: string,
                               complete: (Provider, string) -> Completion)
    requires options.mockResponse && t != ""
    requires forall k :: 0 <= k < |t| ==> IsSpace(t[k])
    ensures ProcessTranscript(config, options, Str(t), complete).Success?
    ensures ProcessTranscript(config, options, Str(t), complete).transcriptLength == 0
  {
    WhitespaceOnlyCleansToEmpty(t);
  }
}
