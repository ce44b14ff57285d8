/**
 * The `/analyze` request handler: validation of the upload and the drug field,
 * parsing, risk assessment, explanation, filtering of the reported variants and
 * assembly of the response, as one function from the request and its
 * environment to the reply sent and whether the uploaded file was deleted.
 */
module AnalyzeRoute {
  import opened Wrappers
  import opened Text
  import opened Vcf
  import opened RuleEngine
  import opened GeminiService
  import opened SchemaBuilder

  /** The multipart request: whether a `vcf_file` was uploaded, and the form
      fields `drugs` and `explanation_depth` when present. */
  datatype Request = Request(fileUploaded: bool, drugs: Option<string>, explanationDepth: Option<string>)

  /** What the handler reads from outside: the uploaded file's lines (`None` when
      reading it fails), the explanation services, the random draw
      `Math.floor(Math.random() * 1000)` and the clock. */
  datatype Env = Env(vcf: Option<seq<string>>, services: Services, roll: nat, timestamp: string)

  datatype Body = ErrorBody(error: string, message: string) | ResponseBody(response: Response)

  /** The HTTP status and JSON body sent, and whether the upload was deleted. */
  datatype Outcome = Outcome(status: nat, body: Body, fileRemoved: bool)

  /** A patient identifier such as `PATIENT_042`: the prefix and at least three digits. */
  function PatientId(roll: nat): (id: string)
    ensures StartsWith(id, "PATIENT_") && |id| >= 11
  {
    var id := "PATIENT_" + PadStart(Decimal(roll), 3, '0');
    assert id[..8] == "PATIENT_";
    id
  }

  /** The explanation depth asked for, "summary" when absent or empty. */
  function Depth(explanationDepth: Option<string>): string
  {
    OrElse(explanationDepth, "summary")
  }

  /** The variants reported: those of the primary gene, or all of them when the
      primary gene is unknown. */
  function RelevantVariants(variants: seq<Variant>, primaryGene: string): seq<Variant>
  {
    if primaryGene != "Unknown" then OfGene(variants, primaryGene) else variants
  }

  /** The request is well formed: a file, a non-empty drug field, and a single drug. */
  predicate ValidRequest(req: Request)
  {
    req.fileUploaded && req.drugs.Some? && req.drugs.value != "" && ',' !in JsTrim(req.drugs.value)
  }

  /** The `/analyze` handler: the status is 200, 400 or 500, a response body comes
      exactly with 200, and the upload is deleted exactly when there was one. */
  function HandleAnalyze(req: Request, env: Env): (o: Outcome)
    requires env.roll < 1000
    ensures o.status == 200 || o.status == 400 || o.status == 500
    ensures o.status == 200 <==> o.body.ResponseBody?
    ensures o.fileRemoved == req.fileUploaded
  {
    if !req.fileUploaded then
      Outcome(400, ErrorBody("Invalid Input", "VCF file is required."), false)
    else if req.drugs.None? || req.drugs.value == "" then
      Outcome(400, ErrorBody("Invalid Input", "Drug name is required."), true)
    else
      var drugsInput := JsTrim(req.drugs.value);
      if ',' in drugsInput then
        Outcome(400, ErrorBody("Invalid Input", "Only one drug allowed per request."), true)
      else if env.vcf.None? then
        Outcome(500, ErrorBody("Processing Error", "Failed to parse VCF file."), true)
      else
        var parsed := Parse(env.vcf.value);
        var drugName := drugsInput;
        var riskData := AnalyzeRisk(drugName, parsed.genes, parsed.variants);
        var explanation := GenerateExplanation(drugName, riskData.profile.primaryGene,
                                               riskData.profile.phenotype, riskData.riskLabel,
                                               Depth(req.explanationDepth), env.services);
        var relevant := RelevantVariants(parsed.variants, riskData.profile.primaryGene);
        var response := BuildResponse(PatientId(env.roll), drugName, riskData, relevant, explanation,
                                      env.timestamp, true);
        Outcome(200, ResponseBody(response), true)
  }

  // ---------------------------------------------------------------------------
  // Validation order and error replies

  /** Without a file the reply is 400 "VCF file is required.", whatever the other
      fields say; no file is deleted since none was stored. */
  lemma MissingFileFirst(req: Request, env: Env)
    requires env.roll < 1000 && !req.fileUploaded
    ensures HandleAnalyze(req, env) == Outcome(400, ErrorBody("Invalid Input", "VCF file is required."), false)
  {
  }

  /** With a file but no (or an empty) drug field: 400 "Drug name is required.". */
  lemma MissingDrug(req: Request, env: Env)
    requires env.roll < 1000 && req.fileUploaded && (req.drugs.None? || req.drugs == Some(""))
    ensures HandleAnalyze(req, env) == Outcome(400, ErrorBody("Invalid Input", "Drug name is required."), true)
  {
  }

  /** A comma in the trimmed drug field: 400 "Only one drug allowed per request.". */
  lemma SeveralDrugs(req: Request, env: Env)
    requires env.roll < 1000 && req.fileUploaded && req.drugs.Some? && req.drugs.value != ""
    requires ',' in JsTrim(req.drugs.value)
    ensures HandleAnalyze(req, env) ==
            Outcome(400, ErrorBody("Invalid Input", "Only one drug allowed per request."), true)
  {
  }

  /** A file that cannot be read: 500 "Failed to parse VCF file.", and nothing
      after the parser (rule engine, explanation, clock, random draw) matters. */
  lemma ParseFailure(req: Request, env: Env)
    requires env.roll < 1000 && ValidRequest(req) && env.vcf.None?
    ensures HandleAnalyze(req, env) == Outcome(500, ErrorBody("Processing Error", "Failed to parse VCF file."), true)
  {
  }

  /** The reply is 200 exactly for a valid request whose file could be read, and
      the upload is deleted exactly when there was one. */
  lemma StatusAndCleanup(req: Request, env: Env)
    requires env.roll < 1000
    ensures var o := HandleAnalyze(req, env);
      (o.status == 200 <==> ValidRequest(req) && env.vcf.Some?) &&
      (o.body.ResponseBody? <==> o.status == 200) &&
      (o.fileRemoved <==> req.fileUploaded)
  {
  }

  // ---------------------------------------------------------------------------
  // The successful reply

  /** The reply to a valid request whose file could be read, step by step. */
  lemma SuccessOutcome(req: Request, env: Env)
    requires env.roll < 1000 && ValidRequest(req) && env.vcf.Some?
    ensures var drug := JsTrim(req.drugs.value);
      var p := Parse(env.vcf.value);
      var risk := AnalyzeRisk(drug, p.genes, p.variants);
      var explanation := GenerateExplanation(drug, risk.profile.primaryGene, risk.profile.phenotype,
                                             risk.riskLabel, Depth(req.explanationDepth), env.services);
      HandleAnalyze(req, env) ==
        Outcome(200, ResponseBody(BuildResponse(PatientId(env.roll), drug, risk,
                                                RelevantVariants(p.variants, risk.profile.primaryGene),
                                                explanation, env.timestamp, true)), true)
  {
  }

  /** A successful reply reports the rule engine's assessment of the trimmed drug
      name over the parsed file, the drug name upper-cased, the diplotype
      "Unknown", a successful parse, and the explanation for the assessment. */
  lemma SuccessfulReply(req: Request, env: Env)
    requires env.roll < 1000 && ValidRequest(req) && env.vcf.Some?
    ensures var o := HandleAnalyze(req, env);
      var drug := JsTrim(req.drugs.value);
      var p := Parse(env.vcf.value);
      var risk := AnalyzeRisk(drug, p.genes, p.variants);
      o.body.ResponseBody? &&
      o.body.response.drug == Upper(drug) &&
      o.body.response.riskAssessment == RiskAssessment(risk.riskLabel, risk.severity, risk.confidence) &&
      o.body.response.recommendation == risk.recommendation &&
      o.body.response.profile == ProfileReport(risk.profile.primaryGene, risk.profile.phenotype, "Unknown") &&
      o.body.response.vcfParsingSuccess &&
      o.body.response.patientId == PatientId(env.roll) &&
      o.body.response.timestamp == env.timestamp &&
      o.body.response.explanation ==
        GenerateExplanation(drug, risk.profile.primaryGene, risk.profile.phenotype, risk.riskLabel,
                            "summary", env.services)
  {
    var drug := JsTrim(req.drugs.value);
    var p := Parse(env.vcf.value);
    var risk := AnalyzeRisk(drug, p.genes, p.variants);
    SuccessOutcome(req, env);
    DepthIgnored(drug, risk.profile.primaryGene, risk.profile.phenotype, risk.riskLabel,
                 Depth(req.explanationDepth), "summary", env.services);
  }

  /** The variants reported for a parsed file: for a known drug exactly the
      parsed variants of its gene, in file order; for an unknown drug all parsed
      variants. A safe result reports none, and a risk found for a known drug
      reports at least one. */
  lemma AssessedVariants(lines: seq<string>, drug: string)
    ensures var p := Parse(lines);
      var risk := AnalyzeRisk(drug, p.genes, p.variants);
      var reported := RelevantVariants(p.variants, risk.profile.primaryGene);
      (risk.profile.primaryGene != "Unknown" ==> reported == OfGene(p.variants, risk.profile.primaryGene)) &&
      (risk.profile.primaryGene == "Unknown" ==> reported == p.variants) &&
      (risk.riskLabel == "Safe" ==> reported == []) &&
      (risk.riskLabel != "Safe" && risk.riskLabel != "Unknown" ==> reported != [])
  {
    var p := Parse(lines);
    var risk := AnalyzeRisk(drug, p.genes, p.variants);
    var gene := risk.profile.primaryGene;
    ParseGenes(lines);
    AssessmentRange(drug, p.genes, p.variants);
    CpicRules.RuleGenesInTable();
    if Upper(drug) in CpicRules.Rules {
      PrimaryGene(drug, p.genes, p.variants);
      assert gene != "Unknown";
      if risk.riskLabel != "Safe" {
        assert gene in p.genes;
        var v :| v in p.variants && v.gene == gene;
        assert v in OfGene(p.variants, gene);
      } else {
        assert gene !in p.genes;
        OfGeneEmpty(p.variants, gene);
      }
    } else {
      UnknownDrug(drug, p.genes, p.variants);
    }
  }

  /** A successful reply reports the variants chosen as above. */
  lemma ReportedVariants(req: Request, env: Env)
    requires env.roll < 1000 && ValidRequest(req) && env.vcf.Some?
    ensures var o := HandleAnalyze(req, env);
      var p := Parse(env.vcf.value);
      var risk := AnalyzeRisk(JsTrim(req.drugs.value), p.genes, p.variants);
      o.body.ResponseBody? &&
      o.body.response.detectedVariants == RelevantVariants(p.variants, risk.profile.primaryGene) &&
      (risk.riskLabel == "Safe" ==> o.body.response.detectedVariants == [])
  {
    SuccessOutcome(req, env);
    AssessedVariants(env.vcf.value, JsTrim(req.drugs.value));
  }

  /** The drug field is trimmed before use: surrounding white space changes
      nothing in the reply. */
  lemma DrugTrimmed(req: Request, env: Env, padded: string)
    requires env.roll < 1000 && ValidRequest(req) && padded != ""
    requires JsTrim(padded) == JsTrim(req.drugs.value)
    ensures HandleAnalyze(req.(drugs := Some(padded)), env) == HandleAnalyze(req, env)
  {
  }

  /** The explanation depth defaults to "summary", and no depth changes the reply. */
  lemma DepthDefault(req: Request, env: Env, depth: Option<string>)
    requires env.roll < 1000
    ensures Depth(None) == "summary" && Depth(Some("")) == "summary"
    ensures HandleAnalyze(req.(explanationDepth := depth), env) == HandleAnalyze(req, env)
  {
    if ValidRequest(req) && env.vcf.Some? {
      var drug := JsTrim(req.drugs.value);
      var p := Parse(env.vcf.value);
      var risk := AnalyzeRisk(drug, p.genes, p.variants);
      DepthIgnored(drug, risk.profile.primaryGene, risk.profile.phenotype, risk.riskLabel,
                   Depth(depth), Depth(req.explanationDepth), env.services);
    }
  }

  // ---------------------------------------------------------------------------
  // Patient identifier

  /** The identifier is `PATIENT_` followed by three decimal digits that denote
      the random draw. */
  lemma PatientIdFormat(roll: nat)
    requires roll < 1000
    ensures var id := PatientId(roll);
      |id| == 11 && StartsWith(id, "PATIENT_") &&
      (forall i :: 8 <= i < 11 ==> '0' <= id[i] <= '9') &&
      DigitsValue(id[8..]) == roll
  {
    var id := PatientId(roll);
    var digits := PadStart(Decimal(roll), 3, '0');
    DecimalLength(roll);
    DecimalValue(roll);
    PadStartZeros(Decimal(roll), 3);
    assert id[8..] == digits;
    assert id[..8] == "PATIENT_";
  }
}
