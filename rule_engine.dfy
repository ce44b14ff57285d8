/**
 * The rule engine: the risk assessment for one drug, given the genes and the
 * variants found in the patient's VCF file.
 */
module RuleEngine {
  import opened Wrappers
  import opened Text
  import opened Vcf
  import opened CpicRules
  import DiplotypeLookup

  /** The pharmacogenomics profile; the engine never sets a diplotype. */
  datatype Profile = Profile(primaryGene: string, phenotype: string, diplotype: Option<string>)

  /** `confidence` is the confidence score in thousandths (0.9 is 900). */
  datatype RiskData = RiskData(riskLabel: string, severity: string, confidence: nat,
                               recommendation: string, profile: Profile)

  /** The assessment of `drugName`: the drug's rule when its gene is among the
      parsed genes, "Safe" when it is not, and "Unknown" for a drug without a rule. */
  function AnalyzeRisk(drugName: string, parsedGenes: seq<string>, detectedVariants: seq<Variant>): (r: RiskData)
    ensures r.riskLabel == "Unknown" <==> Upper(drugName) !in Rules
    ensures Upper(drugName) in Rules ==> r.profile.primaryGene == Rules[Upper(drugName)].gene
    ensures r.profile.diplotype == None
  {
    RuleLabels();
    var normalizedDrug := Upper(drugName);
    if normalizedDrug !in Rules then
      RiskData("Unknown", "None", 0, "No CPIC guidelines found for this drug.",
               Profile("Unknown", "Unknown", None))
    else
      var rule := Rules[normalizedDrug];
      if rule.gene in parsedGenes then
        RiskData(rule.risk, rule.severity, 900, rule.recommendation,
                 Profile(rule.gene, rule.phenotype, None))
      else
        RiskData("Safe", "None", 950, "Standard dosing guidelines apply.",
                 Profile(rule.gene, "Normal Metabolizer", None))
  }

  // ---------------------------------------------------------------------------
  // Properties of the assessment

  /** The drug name's case does not matter: the name is upper-cased before lookup. */
  lemma CaseInsensitive(drugName: string, parsedGenes: seq<string>, detectedVariants: seq<Variant>)
    ensures AnalyzeRisk(Upper(drugName), parsedGenes, detectedVariants) ==
            AnalyzeRisk(drugName, parsedGenes, detectedVariants)
  {
    UpperIdempotent(drugName);
  }

  /** A drug without a rule: risk Unknown, severity None, confidence 0, gene Unknown,
      and the no-guidelines recommendation. */
  lemma UnknownDrug(drugName: string, parsedGenes: seq<string>, detectedVariants: seq<Variant>)
    requires Upper(drugName) !in Rules
    ensures var r := AnalyzeRisk(drugName, parsedGenes, detectedVariants);
      r.riskLabel == "Unknown" && r.severity == "None" && r.confidence == 0 &&
      r.recommendation == "No CPIC guidelines found for this drug." &&
      r.profile.primaryGene == "Unknown" && r.profile.phenotype == "Unknown"
  {
  }

  /** A drug whose gene was found: the rule's risk, severity, recommendation, gene
      and phenotype, with confidence 0.9. */
  lemma GenePresent(drugName: string, parsedGenes: seq<string>, detectedVariants: seq<Variant>)
    requires Upper(drugName) in Rules && Rules[Upper(drugName)].gene in parsedGenes
    ensures var r := AnalyzeRisk(drugName, parsedGenes, detectedVariants); var rule := Rules[Upper(drugName)];
      r.riskLabel == rule.risk && r.severity == rule.severity && r.confidence == 900 &&
      r.recommendation == rule.recommendation &&
      r.profile.primaryGene == rule.gene && r.profile.phenotype == rule.phenotype
  {
  }

  /** A drug whose gene was not found: Safe, severity None, confidence 0.95, the
      standard-dosing recommendation, the rule's gene, phenotype Normal Metabolizer. */
  lemma GeneAbsent(drugName: string, parsedGenes: seq<string>, detectedVariants: seq<Variant>)
    requires Upper(drugName) in Rules && Rules[Upper(drugName)].gene !in parsedGenes
    ensures var r := AnalyzeRisk(drugName, parsedGenes, detectedVariants);
      r.riskLabel == "Safe" && r.severity == "None" && r.confidence == 950 &&
      r.recommendation == "Standard dosing guidelines apply." &&
      r.profile.primaryGene == Rules[Upper(drugName)].gene &&
      r.profile.phenotype == "Normal Metabolizer"
  {
  }

  /** For a known drug the primary gene is always the rule's gene; no
      assessment ever carries a diplotype. */
  lemma PrimaryGene(drugName: string, parsedGenes: seq<string>, detectedVariants: seq<Variant>)
    ensures var r := AnalyzeRisk(drugName, parsedGenes, detectedVariants);
      (Upper(drugName) in Rules ==> r.profile.primaryGene == Rules[Upper(drugName)].gene) &&
      r.profile.diplotype == None
  {
  }

  /** The result depends only on the drug name and on whether the rule's gene is
      among the parsed genes: the detected variants are ignored. */
  lemma OnlyGeneMembershipMatters(drugName: string, genes1: seq<string>, genes2: seq<string>,
                                  variants1: seq<Variant>, variants2: seq<Variant>)
    requires Upper(drugName) in Rules ==>
      (Rules[Upper(drugName)].gene in genes1 <==> Rules[Upper(drugName)].gene in genes2)
    ensures AnalyzeRisk(drugName, genes1, variants1) == AnalyzeRisk(drugName, genes2, variants2)
  {
  }

  /** The labels an assessment can carry, and "Safe" exactly when a known drug's
      gene was not found. */
  lemma AssessmentRange(drugName: string, parsedGenes: seq<string>, detectedVariants: seq<Variant>)
    ensures var r := AnalyzeRisk(drugName, parsedGenes, detectedVariants);
      (r.riskLabel in RiskLabels || r.riskLabel == "Safe" || r.riskLabel == "Unknown") &&
      (r.severity in Severities || r.severity == "None") &&
      (r.confidence == 0 || r.confidence == 900 || r.confidence == 950) &&
      (r.riskLabel == "Safe" <==>
        Upper(drugName) in Rules && Rules[Upper(drugName)].gene !in parsedGenes)
  {
    RuleLabels();
  }

  /** The reported phenotype is Unknown, Normal Metabolizer, or a phenotype the
      diplotype table lists for the primary gene. */
  lemma PhenotypeFromTable(drugName: string, parsedGenes: seq<string>, detectedVariants: seq<Variant>)
    ensures var r := AnalyzeRisk(drugName, parsedGenes, detectedVariants);
      r.profile.phenotype == "Unknown" || r.profile.phenotype == "Normal Metabolizer" ||
      (r.profile.primaryGene in DiplotypeLookup.DiplotypeTable &&
       r.profile.phenotype in DiplotypeLookup.Phenotypes(r.profile.primaryGene))
  {
    RulePhenotypesInTable();
  }

  /** No upper-cased name is a member every JavaScript object inherits, so the
      lookup in the rule object finds only the six drugs. */
  lemma NoInheritedDrug(drugName: string)
    ensures Upper(drugName) !in DiplotypeLookup.InheritedMembers
  {
    UpperHasNoLower(drugName);
    InheritedHaveLower();
  }

  /** Every inherited member name contains a lower-case ASCII letter. */
  lemma InheritedHaveLower()
    ensures forall m :: m in DiplotypeLookup.InheritedMembers ==> !IsUpperAscii(m)
  {
    forall m | m in DiplotypeLookup.InheritedMembers
      ensures !IsUpperAscii(m)
    {
      var k := if m[0] == '_' then 2 else 0;
      assert 'a' <= m[k] <= 'z';
    }
  }

  /** The backend's self-check, first case: WARFARIN with CYP2C9 among the
      parsed genes needs a dose adjustment. */
  lemma WarfarinWithCyp2c9(parsedGenes: seq<string>, detectedVariants: seq<Variant>)
    requires "CYP2C9" in parsedGenes
    ensures AnalyzeRisk("WARFARIN", parsedGenes, detectedVariants).riskLabel == "Adjust Dosage"
  {
    assert "WARFARIN" in Rules && Rules["WARFARIN"].gene == "CYP2C9" &&
      Rules["WARFARIN"].risk == "Adjust Dosage";
    KnownDrugLabel("WARFARIN", parsedGenes, detectedVariants);
  }

  /** The backend's self-check, second case: CLOPIDOGREL without CYP2C19 is safe. */
  lemma ClopidogrelWithoutCyp2c19(parsedGenes: seq<string>, detectedVariants: seq<Variant>)
    requires "CYP2C19" !in parsedGenes
    ensures AnalyzeRisk("CLOPIDOGREL", parsedGenes, detectedVariants).riskLabel == "Safe"
  {
    assert "CLOPIDOGREL" in Rules && Rules["CLOPIDOGREL"].gene == "CYP2C19";
    KnownDrugLabel("CLOPIDOGREL", parsedGenes, detectedVariants);
  }

  /** The label of a drug whose name is a literal that upper-casing leaves alone. */
  lemma KnownDrugLabel(drug: string, parsedGenes: seq<string>, detectedVariants: seq<Variant>)
    requires drug in Rules && IsAscii(drug) && IsUpperAscii(drug)
    ensures AnalyzeRisk(drug, parsedGenes, detectedVariants).riskLabel ==
      if Rules[drug].gene in parsedGenes then Rules[drug].risk else "Safe"
  {
    UpperFixesUpperAscii(drug);
  }
}
