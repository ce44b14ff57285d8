/**
 * The response record of the analysis endpoint, assembled from the risk
 * assessment, the reported variants and the explanation.
 */
module SchemaBuilder {
  import opened Wrappers
  import opened Text
  import opened Vcf
  import opened RuleEngine
  import opened GeminiService

  datatype RiskAssessment = RiskAssessment(riskLabel: string, severity: string, confidenceScore: nat)

  datatype ProfileReport = ProfileReport(primaryGene: string, phenotype: string, diplotype: string)

  /** The response object; `timestamp` is the ISO-8601 time of assembly and
      `confidenceScore` is in thousandths. */
  datatype Response = Response(
    patientId: string,
    drug: string,
    timestamp: string,
    riskAssessment: RiskAssessment,
    profile: ProfileReport,
    detectedVariants: seq<Variant>,
    recommendation: string,
    explanation: Explanation,
    vcfParsingSuccess: bool)

  /** `buildResponse(patientId, drug, riskData, detectedVariants, explanation, parsingSuccess)`,
      with the clock's reading passed in as `timestamp`. */
  function BuildResponse(patientId: string, drug: string, riskData: RiskData, detectedVariants: seq<Variant>,
                         explanation: Explanation, timestamp: string, parsingSuccess: bool := true): (r: Response)
    ensures IsUpperAscii(r.drug) && r.profile.diplotype != ""
    ensures riskData.profile.diplotype.None? || riskData.profile.diplotype == Some("") ==>
      r.profile.diplotype == "Unknown"
  {
    UpperHasNoLower(drug);
    Response(
      patientId,
      Upper(drug),
      timestamp,
      RiskAssessment(riskData.riskLabel, riskData.severity, riskData.confidence),
      ProfileReport(riskData.profile.primaryGene, riskData.profile.phenotype,
                    OrElse(riskData.profile.diplotype, "Unknown")),
      detectedVariants,
      riskData.recommendation,
      explanation,
      parsingSuccess)
  }

  /** The response carries the assessment, the variants and the explanation
      unchanged; its drug name is in normal (upper-case) form, the same for
      any spelling of the drug; its diplotype is the profile's when that is a
      non-empty text and "Unknown" when it is missing or empty. */
  lemma ResponseFields(patientId: string, drug: string, riskData: RiskData, detectedVariants: seq<Variant>,
                       explanation: Explanation, timestamp: string, parsingSuccess: bool)
    ensures var r := BuildResponse(patientId, drug, riskData, detectedVariants, explanation, timestamp,
                                   parsingSuccess);
      r.patientId == patientId && r.timestamp == timestamp &&
      Upper(r.drug) == r.drug &&
      r.drug == BuildResponse(patientId, Upper(drug), riskData, detectedVariants, explanation, timestamp,
                              parsingSuccess).drug &&
      r.riskAssessment.riskLabel == riskData.riskLabel && r.riskAssessment.severity == riskData.severity &&
      r.riskAssessment.confidenceScore == riskData.confidence &&
      r.profile.primaryGene == riskData.profile.primaryGene && r.profile.phenotype == riskData.profile.phenotype &&
      r.detectedVariants == detectedVariants && r.recommendation == riskData.recommendation &&
      r.explanation.summary == explanation.summary && r.explanation.expanded == explanation.expanded &&
      r.vcfParsingSuccess == parsingSuccess &&
      r.profile.diplotype != "" &&
      (riskData.profile.diplotype.None? || riskData.profile.diplotype == Some("") ==>
        r.profile.diplotype == "Unknown") &&
      (riskData.profile.diplotype.Some? && riskData.profile.diplotype.value != "" ==>
        r.profile.diplotype == riskData.profile.diplotype.value)
  {
    UpperIdempotent(drug);
  }

  /** Without the last argument, the response reports a successful parse. */
  lemma ParsingSuccessDefault(patientId: string, drug: string, riskData: RiskData, detectedVariants: seq<Variant>,
                              explanation: Explanation, timestamp: string)
    ensures BuildResponse(patientId, drug, riskData, detectedVariants, explanation, timestamp).vcfParsingSuccess
  {
  }

  /** The rule engine never sets a diplotype, so a response built from its
      assessment always reports the diplotype "Unknown". */
  lemma EngineDiplotypeUnknown(patientId: string, drug: string, parsedGenes: seq<string>,
                               variants: seq<Variant>, detectedVariants: seq<Variant>,
                               explanation: Explanation, timestamp: string, parsingSuccess: bool)
    ensures BuildResponse(patientId, drug, AnalyzeRisk(drug, parsedGenes, variants), detectedVariants,
                          explanation, timestamp, parsingSuccess).profile.diplotype == "Unknown"
  {
    PrimaryGene(drug, parsedGenes, variants);
  }
}
