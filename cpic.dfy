/**
 * The CPIC (Clinical Pharmacogenetics Implementation Consortium) rule table:
 * for each supported drug, the gene that governs it and the risk, severity,
 * recommendation and phenotype reported when that gene carries a variant.
 */
module CpicRules {
  import opened Text
  import DiplotypeLookup

  datatype Rule = Rule(gene: string, risk: string, severity: string, recommendation: string,
                       phenotype: string)

  /** The rule object, keyed by upper-case drug name. */
  const Rules: map<string, Rule> := map[
    "WARFARIN" := Rule("CYP2C9", "Adjust Dosage", "Moderate",
      "Lower initial dose and monitor INR", "Intermediate Metabolizer"),
    "CLOPIDOGREL" := Rule("CYP2C19", "Ineffective", "High",
      "Consider alternative antiplatelet therapy", "Poor Metabolizer"),
    "CODEINE" := Rule("CYP2D6", "Toxic", "Critical",
      "Avoid codeine due to risk of morphine toxicity", "Ultra-Rapid Metabolizer"),
    "SIMVASTATIN" := Rule("SLCO1B1", "Toxic", "High",
      "Lower dose or consider alternative statin to avoid myopathy", "Poor Function"),
    "AZATHIOPRINE" := Rule("TPMT", "Toxic", "High",
      "Significantly reduce dose or select alternative", "Poor Metabolizer"),
    "FLUOROURACIL" := Rule("DPYD", "Toxic", "Critical",
      "Avoid use or drastically reduce dose", "Poor Metabolizer")
  ]

  const Drugs: set<string> :=
    {"WARFARIN", "CLOPIDOGREL", "CODEINE", "SIMVASTATIN", "AZATHIOPRINE", "FLUOROURACIL"}

  const RiskLabels: set<string> := {"Adjust Dosage", "Ineffective", "Toxic"}

  const Severities: set<string> := {"Moderate", "High", "Critical"}

  /** The table has exactly six drugs. */
  lemma DrugKeys()
    ensures Rules.Keys == Drugs && |Drugs| == 6
  {
  }

  /** No drug name holds a lower-case letter, so the upper-cased name the rule
      engine looks up can find each. */
  lemma DrugNamesUpperCase()
    ensures forall d :: d in Drugs ==> IsUpperAscii(d)
  {
  }

  /** Every rule's risk and severity come from the fixed vocabularies. */
  lemma RuleLabels()
    ensures forall d :: d in Rules ==> Rules[d].risk in RiskLabels && Rules[d].severity in Severities
  {
  }

  /** The six rules name six distinct genes. */
  lemma RuleGenesDistinct()
    ensures forall d1, d2 :: d1 in Rules && d2 in Rules && d1 != d2 ==> Rules[d1].gene != Rules[d2].gene
  {
  }

  /** Every rule's gene has a row in the diplotype table (whose genes are
      `TableGenes`, by `DiplotypeLookup.TableGenotypeKeys`). */
  lemma RuleGenesInTable()
    ensures forall d :: d in Rules ==> Rules[d].gene in DiplotypeLookup.TableGenes
  {
  }

  /** Every gene of the diplotype table is the gene of some rule. */
  lemma TableGenesHaveRules()
    ensures forall g :: g in DiplotypeLookup.TableGenes ==> exists d :: d in Rules && Rules[d].gene == g
  {
    forall g | g in DiplotypeLookup.TableGenes
      ensures exists d :: d in Rules && Rules[d].gene == g
    {
      var d := if g == "CYP2C9" then "WARFARIN" else if g == "CYP2C19" then "CLOPIDOGREL"
        else if g == "CYP2D6" then "CODEINE" else if g == "SLCO1B1" then "SIMVASTATIN"
        else if g == "TPMT" then "AZATHIOPRINE" else "FLUOROURACIL";
      assert d in Rules && Rules[d].gene == g;
    }
  }

  /** Each rule's phenotype is one the diplotype table lists for the rule's gene. */
  lemma RulePhenotypesInTable()
    ensures forall d :: d in Rules ==>
      Rules[d].gene in DiplotypeLookup.DiplotypeTable &&
      Rules[d].phenotype in DiplotypeLookup.Phenotypes(Rules[d].gene)
  {
    forall d | d in Rules
      ensures Rules[d].gene in DiplotypeLookup.DiplotypeTable
      ensures Rules[d].phenotype in DiplotypeLookup.Phenotypes(Rules[d].gene)
    {
      RulePhenotypeListed(d, if d == "WARFARIN" then "0/1" else "1/1");
    }
  }

  /** One rule's phenotype is the table's entry for `key` in the rule's gene. */
  lemma RulePhenotypeListed(d: string, key: string)
    requires d in Rules && key == if d == "WARFARIN" then "0/1" else "1/1"
    ensures Rules[d].gene in DiplotypeLookup.DiplotypeTable
    ensures key in DiplotypeLookup.DiplotypeTable[Rules[d].gene].genotypes
    ensures DiplotypeLookup.DiplotypeTable[Rules[d].gene].genotypes[key].phenotype == Rules[d].phenotype
  {
  }
}
