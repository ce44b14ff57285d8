/**
 * The diplotype lookup table (gene -> genotype key -> star-allele diplotype and
 * phenotype) and the lookup of a gene's assignment from the detected variants.
 * Genotype keys: "0/0" homozygous reference, "0/1" heterozygous, "1/1"
 * homozygous variant.
 */
module DiplotypeLookup {
  import opened Wrappers
  import opened Vcf

  datatype Assignment = Assignment(diplotype: string, phenotype: string)

  datatype GeneEntry = GeneEntry(rsids: seq<string>, genotypes: map<string, Assignment>)

  const GenotypeKeys: set<string> := {"0/0", "0/1", "1/1"}

  /** One gene's row: its rsid and the assignments of the three genotype keys. */
  function Row(rsid: string, ref: Assignment, het: Assignment, hom: Assignment): (e: GeneEntry)
    ensures e.genotypes.Keys == GenotypeKeys
  {
    GeneEntry([rsid], map["0/0" := ref, "0/1" := het, "1/1" := hom])
  }

  const DiplotypeTable: map<string, GeneEntry> := map[
    "CYP2C9" := Row("rs1057910",
      Assignment("*1/*1", "Normal Metabolizer"),
      Assignment("*1/*3", "Intermediate Metabolizer"),
      Assignment("*3/*3", "Poor Metabolizer")),
    "CYP2C19" := Row("rs4244285",
      Assignment("*1/*1", "Normal Metabolizer"),
      Assignment("*1/*2", "Intermediate Metabolizer"),
      Assignment("*2/*2", "Poor Metabolizer")),
    "CYP2D6" := Row("rs3892097",
      Assignment("*1/*1", "Normal Metabolizer"),
      Assignment("*1/*4", "Intermediate Metabolizer"),
      Assignment("*4/*4", "Ultra-Rapid Metabolizer")),
    "SLCO1B1" := Row("rs4149056",
      Assignment("*1a/*1a", "Normal Function"),
      Assignment("*1a/*5", "Intermediate Function"),
      Assignment("*5/*5", "Poor Function")),
    "TPMT" := Row("rs1800460",
      Assignment("*1/*1", "Normal Metabolizer"),
      Assignment("*1/*3A", "Intermediate Metabolizer"),
      Assignment("*3A/*3A", "Poor Metabolizer")),
    "DPYD" := Row("rs3918290",
      Assignment("*1/*1", "Normal Metabolizer"),
      Assignment("*1/*2A", "Intermediate Metabolizer"),
      Assignment("*2A/*2A", "Poor Metabolizer"))
  ]

  /** The phenotypes the table lists for one of its genes. */
  function Phenotypes(gene: string): set<string>
    requires gene in DiplotypeTable
  {
    set gt | gt in DiplotypeTable[gene].genotypes :: DiplotypeTable[gene].genotypes[gt].phenotype
  }

  const UnknownAssignment: Assignment := Assignment("Unknown", "Unknown")

  /** What a table gene without any detected variant is reported as. */
  const WildType: Assignment := Assignment("*1/*1", "Normal Metabolizer")

  /** The test `gt && genotypes[gt]`: a non-empty called genotype that is a key. */
  predicate Recognised(genotypes: map<string, Assignment>, gt: Genotype)
  {
    gt.Called? && gt.gt != "" && gt.gt in genotypes
  }

  /** The first variant, in order, whose genotype is recognised gives the answer. */
  function FirstRecognised(genotypes: map<string, Assignment>, vs: seq<Variant>): Option<Assignment>
  {
    if vs == [] then None
    else if Recognised(genotypes, vs[0].genotype) then Some(genotypes[vs[0].genotype.gt])
    else FirstRecognised(genotypes, vs[1..])
  }

  /** The diplotype and phenotype of `gene` given the detected variants; only a
      gene of the table gets an answer other than Unknown/Unknown. */
  function GetPhenotype(gene: string, variants: seq<Variant>): (r: Assignment)
    ensures r != UnknownAssignment ==> gene in DiplotypeTable
  {
    if gene !in DiplotypeTable then UnknownAssignment
    else
      var geneVariants := OfGene(variants, gene);
      if geneVariants == [] then WildType
      else match FirstRecognised(DiplotypeTable[gene].genotypes, geneVariants)
        case Some(a) => a
        case None => UnknownAssignment
  }

  // ---------------------------------------------------------------------------
  // Properties of the lookup

  const TableGenes: set<string> := {"CYP2C9", "CYP2C19", "CYP2D6", "SLCO1B1", "TPMT", "DPYD"}

  /** The table has six genes, and every one has exactly the three genotype keys. */
  lemma TableGenotypeKeys()
    ensures DiplotypeTable.Keys == TableGenes
    ensures forall g :: g in DiplotypeTable ==> DiplotypeTable[g].genotypes.Keys == GenotypeKeys
  {
  }

  /** A gene not in the table is Unknown whatever the variants are. */
  lemma UnknownGene(gene: string, variants: seq<Variant>)
    requires gene !in DiplotypeTable
    ensures GetPhenotype(gene, variants) == UnknownAssignment
  {
  }

  /** A table gene without variants of that gene is the wild type. */
  lemma NoVariantsOfGene(gene: string, variants: seq<Variant>)
    requires gene in DiplotypeTable
    requires forall v :: v in variants ==> v.gene != gene
    ensures GetPhenotype(gene, variants) == WildType
  {
  }

  /** The answer is the table entry of the first variant of the gene whose
      genotype is a key of the gene's table. */
  lemma {:induction false} FirstMatchDecides(gene: string, variants: seq<Variant>, k: nat)
    requires gene in DiplotypeTable
    requires k < |variants| && variants[k].gene == gene
    requires Recognised(DiplotypeTable[gene].genotypes, variants[k].genotype)
    requires forall j :: 0 <= j < k && variants[j].gene == gene ==>
      !Recognised(DiplotypeTable[gene].genotypes, variants[j].genotype)
    ensures GetPhenotype(gene, variants) == DiplotypeTable[gene].genotypes[variants[k].genotype.gt]
  {
    var genotypes := DiplotypeTable[gene].genotypes;
    FirstRecognisedAt(genotypes, variants, gene, k);
    assert variants[k] in OfGene(variants, gene);
  }

  lemma {:induction false} FirstRecognisedAt(genotypes: map<string, Assignment>, vs: seq<Variant>,
                                            gene: string, k: nat)
    requires k < |vs| && vs[k].gene == gene && Recognised(genotypes, vs[k].genotype)
    requires forall j :: 0 <= j < k && vs[j].gene == gene ==> !Recognised(genotypes, vs[j].genotype)
    ensures FirstRecognised(genotypes, OfGene(vs, gene)) == Some(genotypes[vs[k].genotype.gt])
  {
    var rest := OfGene(vs[1..], gene);
    if k == 0 {
      assert OfGene(vs, gene) == [vs[0]] + rest;
    } else {
      ShiftUnrecognised(genotypes, vs, gene, k);
      FirstRecognisedAt(genotypes, vs[1..], gene, k - 1);
      if vs[0].gene == gene {
        assert OfGene(vs, gene) == [vs[0]] + rest;
        assert ([vs[0]] + rest)[1..] == rest;
      } else {
        assert OfGene(vs, gene) == [] + rest;
        assert [] + rest == rest;
      }
    }
  }

  lemma ShiftUnrecognised(genotypes: map<string, Assignment>, vs: seq<Variant>, gene: string, k: nat)
    requires 0 < k <= |vs|
    requires forall j :: 0 <= j < k && vs[j].gene == gene ==> !Recognised(genotypes, vs[j].genotype)
    ensures forall j :: 0 <= j < k - 1 && vs[1..][j].gene == gene ==> !Recognised(genotypes, vs[1..][j].genotype)
  {
    forall j | 0 <= j < k - 1 && vs[1..][j].gene == gene
      ensures !Recognised(genotypes, vs[1..][j].genotype)
    {
      assert vs[1..][j] == vs[j + 1];
    }
  }

  lemma {:induction false} NoneRecognised(genotypes: map<string, Assignment>, vs: seq<Variant>)
    requires forall v :: v in vs ==> !Recognised(genotypes, v.genotype)
    ensures FirstRecognised(genotypes, vs) == None
  {
    if vs != [] {
      assert vs[0] in vs;
      NoneRecognised(genotypes, vs[1..]);
    }
  }

  /** Variants of the gene exist, but none has a recognised genotype (absent,
      empty or not a key): the answer is Unknown. */
  lemma UnrecognisedGenotypes(gene: string, variants: seq<Variant>)
    requires gene in DiplotypeTable
    requires exists v :: v in variants && v.gene == gene
    requires forall v :: v in variants && v.gene == gene ==>
      !Recognised(DiplotypeTable[gene].genotypes, v.genotype)
    ensures GetPhenotype(gene, variants) == UnknownAssignment
  {
    var v :| v in variants && v.gene == gene;
    assert v in OfGene(variants, gene);
    NoneRecognised(DiplotypeTable[gene].genotypes, OfGene(variants, gene));
  }

  /** Variants of other genes never affect the answer. */
  lemma OtherGeneIrrelevant(gene: string, before: seq<Variant>, v: Variant, after: seq<Variant>)
    requires v.gene != gene
    ensures GetPhenotype(gene, before + [v] + after) == GetPhenotype(gene, before + after)
  {
    OfGeneSkip(before, v, after, gene);
  }

  /** The answer is Unknown, the wild type, or an entry of the gene's own table row. */
  lemma {:induction false} AnswerRange(gene: string, variants: seq<Variant>)
    ensures var a := GetPhenotype(gene, variants);
      a == UnknownAssignment || a == WildType ||
      (gene in DiplotypeTable && a in DiplotypeTable[gene].genotypes.Values)
  {
    if gene in DiplotypeTable {
      FirstRecognisedRange(DiplotypeTable[gene].genotypes, OfGene(variants, gene));
    }
  }

  lemma {:induction false} FirstRecognisedRange(genotypes: map<string, Assignment>, vs: seq<Variant>)
    ensures FirstRecognised(genotypes, vs).Some? ==> FirstRecognised(genotypes, vs).value in genotypes.Values
  {
    if vs != [] && !Recognised(genotypes, vs[0].genotype) {
      FirstRecognisedRange(genotypes, vs[1..]);
    }
  }

  // ---------------------------------------------------------------------------
  // The lookup as written: `DIPLOTYPE_TABLE[gene]` and `lookup.genotypes[gt]`
  // index plain JavaScript objects, which also answer for the members every
  // object inherits from Object.prototype.

  /** The names of the members a plain JavaScript object inherits. */
  const InheritedMembers: set<string> := {
    "constructor", "__proto__", "hasOwnProperty", "isPrototypeOf", "propertyIsEnumerable",
    "toLocaleString", "toString", "valueOf", "__defineGetter__", "__defineSetter__",
    "__lookupGetter__", "__lookupSetter__"}

  /** What the JavaScript lookup returns: a table entry, some other (inherited)
      object, or a TypeError thrown while reading a property of `undefined`. */
  datatype LookupOutcome = Entry(a: Assignment) | InheritedObject | TypeError

  function FirstRecognisedAsWritten(genotypes: map<string, Assignment>, vs: seq<Variant>): (r: Option<LookupOutcome>)
    ensures r.Some? ==> !r.value.TypeError?
  {
    if vs == [] then None
    else
      var gt := vs[0].genotype;
      if gt.Called? && gt.gt != "" && gt.gt in genotypes then Some(Entry(genotypes[gt.gt]))
      else if gt.Called? && gt.gt != "" && gt.gt in InheritedMembers then Some(InheritedObject)
      else FirstRecognisedAsWritten(genotypes, vs[1..])
  }

  /** Whether some variant has a truthy genotype (a non-empty called one). */
  predicate SomeTruthyGenotype(vs: seq<Variant>)
  {
    exists v :: v in vs && v.genotype.Called? && v.genotype.gt != ""
  }

  /** `getPhenotype` exactly as written, inherited members included.  For an
      inherited gene name `lookup` is a function or Object.prototype: truthy,
      but without a `genotypes` member, so the first truthy genotype throws. */
  function GetPhenotypeAsWritten(gene: string, variants: seq<Variant>): (r: LookupOutcome)
    ensures r.TypeError? ==> gene in InheritedMembers && gene !in DiplotypeTable
    ensures gene !in DiplotypeTable && gene !in InheritedMembers ==> r == Entry(UnknownAssignment)
  {
    if gene !in DiplotypeTable && gene !in InheritedMembers then Entry(UnknownAssignment)
    else
      var geneVariants := OfGene(variants, gene);
      if geneVariants == [] then Entry(WildType)
      else if gene !in DiplotypeTable then
        (if SomeTruthyGenotype(geneVariants) then TypeError else Entry(UnknownAssignment))
      else match FirstRecognisedAsWritten(DiplotypeTable[gene].genotypes, geneVariants)
        case Some(o) => o
        case None => Entry(UnknownAssignment)
  }

  /** The discrepancy: the inherited name `constructor` is no gene of the table,
      yet with no variants it is reported as a normal metaboliser. */
  lemma InheritedGeneIsWildType()
    ensures GetPhenotypeAsWritten("constructor", []) == Entry(WildType)
    ensures GetPhenotype("constructor", []) == UnknownAssignment
  {
    assert "constructor" in InheritedMembers;
    assert "constructor" !in DiplotypeTable by {
      TableGenotypeKeys();
    }
    assert OfGene([], "constructor") == [];
  }

  lemma {:induction false} FirstRecognisedAgrees(genotypes: map<string, Assignment>, vs: seq<Variant>)
    requires forall v :: v in vs && v.genotype.Called? ==> v.genotype.gt !in InheritedMembers
    ensures FirstRecognisedAsWritten(genotypes, vs) ==
      match FirstRecognised(genotypes, vs)
      case None => None
      case Some(a) => Some(Entry(a))
  {
    if vs != [] {
      assert vs[0] in vs;
      FirstRecognisedAgrees(genotypes, vs[1..]);
    }
  }

  /** Away from inherited member names, the lookup as written and the corrected
      one (own keys only) agree. */
  lemma AsWrittenAgrees(gene: string, variants: seq<Variant>)
    requires gene !in InheritedMembers
    requires forall v :: v in variants && v.genotype.Called? ==> v.genotype.gt !in InheritedMembers
    ensures GetPhenotypeAsWritten(gene, variants) == Entry(GetPhenotype(gene, variants))
  {
    if gene in DiplotypeTable {
      FirstRecognisedAgrees(DiplotypeTable[gene].genotypes, OfGene(variants, gene));
    }
  }
}
