# Pharmacogenomic risk backend, modelled in Dafny

This project models the deterministic core of a pharmacogenomics web backend. A
client uploads a VCF (Variant Call Format) file and names one drug. The backend
then does the following:

1. It extracts the tagged variants from the file: gene, rsid and genotype.
2. It looks the drug up in a table of six CPIC (Clinical Pharmacogenetics
   Implementation Consortium) rules. The result is a risk label, a severity, a
   confidence score and a recommendation.
3. It asks a language model for an explanation. Calls are retried with
   exponential back-off, code fences are stripped from the reply, and fixed
   fallback texts are used when no reply is available.
4. It assembles a response record.

A small Python service builds the guideline context given to the model from a
vector store's answer. A diplotype table maps a gene's genotype (`0/0`, `0/1`,
`1/1`) to a star-allele diplotype and a phenotype.

One module per source file:

- `Vcf` (vcf.dfy): the line loop `ParseVcf` is a method, proved equal to the
  function `Parse`. The column split follows the regular expression
  `/\t|\s{2,}|\s+/` exactly, including JavaScript's set of white-space characters.
- `DiplotypeLookup` (diplotype.dfy): the table and `GetPhenotype`. It also holds
  `GetPhenotypeAsWritten`, which models the JavaScript object lookup as written
  (see Findings).
- `CpicRules` (cpic.dfy): the rule table.
- `RuleEngine` (rule_engine.dfy): `AnalyzeRisk`.
- `SchemaBuilder` (schema.dfy): `BuildResponse`.
- `GeminiService` (gemini.dfy): the retry loop `WithRetry`, a method proved equal
  to the function `Retry`; the clean-up of the reply; the field fallbacks; the
  fallback explanation; `GenerateExplanation` over an abstract set of services.
- `AnalyzeRoute` (analyze.dfy): the `/analyze` handler. It is a function from the
  request and its environment to the HTTP status, the body and whether the
  upload was deleted.
- `Retrieve` (retrieve.dfy): `RetrieveContext`, a method whose loop accumulates
  the documents, proved equal to the function `Context`.
- `Text` and `Wrappers`: the string operations of JavaScript and Python the code
  relies on:
  - `trim` and `strip`
  - `toUpperCase`
  - `split`, `indexOf` and `includes`
  - `replace(/…/g, '')`
  - `substring`, `padStart` and `toString`

Numbers and units:

- Confidence scores are whole numbers of thousandths: 0.0, 0.9 and 0.95 become
  0, 900 and 950.
- Delays are milliseconds.

When a known drug's gene is absent, the rule engine reports the phenotype
"Normal Metabolizer" for every gene. That includes SLCO1B1, whose row in the
diplotype table speaks of "Normal Function" instead (`RuleEngine.PhenotypeFromTable`).

## Model

| member | source | states |
|---|---|---|
| Vcf.SplitColumns | backend/src/services/vcfParser.js:24 | splitting a line never leaves white space inside a column, and always gives at least one column |
| Vcf.SplitColumnsWord | backend/src/services/vcfParser.js:24 | a word without white space is glued to the first column of the text that follows it |
| Vcf.SplitColumnsJoin | backend/src/services/vcfParser.js:24 | tab-joined columns without white space split back into exactly those columns |
| Vcf.GeneMatch | backend/src/services/vcfParser.js:33-35 | `GENE=([^;]+)` has no match exactly when no position has `GENE=` followed by a non-`;`; a match is non-empty, holds no `;`, and follows `GENE=` in INFO |
| Vcf.GeneMatchLeftmost | backend/src/services/vcfParser.js:33-36 | the gene is read at the leftmost usable `GENE=` and runs to the next `;` or the end of INFO |
| Vcf.GeneMatchOfTag | backend/src/services/vcfParser.js:33-36 | a `GENE=` tag whose value is ended by `;` or by the end of INFO is read whole |
| Vcf.GenotypeOf | backend/src/services/vcfParser.js:41-49 | a called genotype needs a sample column and a `GT` key in FORMAT, and is a `:`-free subfield of the sample |
| Vcf.GenotypeWithoutSample | backend/src/services/vcfParser.js:41-42 | a line without a sample column (at most 9 columns) has genotype `null` |
| Vcf.GenotypeOfFields | backend/src/services/vcfParser.js:42-49 | for FORMAT `k1:…:kn` and sample `v1:…:vm`: `null` without a `GT` key; else the value at the first `GT` position, or `undefined` when the sample has fewer values |
| Vcf.ParseVcf | backend/src/services/vcfParser.js:9-63 | the line loop, with its `continue` guards, the gene set and the variant list, returns exactly `Parse(lines)` |
| Vcf.HeaderLineIgnored | backend/src/services/vcfParser.js:20-22 | inserting a line that starts with `#` anywhere in a file changes neither genes nor variants |
| Vcf.UnusableLineIgnored | backend/src/services/vcfParser.js:24-29 | a line with fewer than 8 columns, or with an ID column that is empty or `.`, changes nothing |
| Vcf.SkippedLineInvisible | backend/src/services/vcfParser.js:19-35 | any line that yields no variant can be removed without changing the result |
| Vcf.AcceptedLine | backend/src/services/vcfParser.js:20-55 | a recorded variant comes from a non-header line of at least 8 columns; its rsid is column 2 (not empty, not `.`); its gene is a non-empty, `;`-free text after `GENE=` |
| Vcf.VariantsFromLines | backend/src/services/vcfParser.js:19-56 | there is at most one variant per line, and every variant is the one of some line |
| Vcf.VariantsAppend | backend/src/services/vcfParser.js:51-55 | the variants of two files read one after the other are the concatenation of their variants, so file order is kept |
| Vcf.VariantsAround | backend/src/services/vcfParser.js:51-55 | a file's variants are those before a line, then the line's own, then those after it |
| Vcf.TaggedLineRecorded | backend/src/services/vcfParser.js:28-55 | a data line with a usable ID whose INFO holds a `GENE=` tag, after any other keys that hold no usable `GENE=`, puts its variant (that gene, rsid = column 2) at its place in the list; its gene is in the gene list |
| Vcf.ParseGenes | backend/src/services/vcfParser.js:16-62 | the gene list has no duplicates, lists genes in order of first appearance, and holds exactly the genes of the returned variants |
| Vcf.GeneOfVariantListed | backend/src/services/vcfParser.js:37 | the gene of every returned variant is in the gene list |
| Vcf.GenesOfMembers | backend/src/services/vcfParser.js:37 | the genes collected from the variants are exactly their gene fields, one per variant |
| Vcf.DedupSpec | backend/src/services/vcfParser.js:60 | `Array.from(new Set(...))` keeps exactly the same elements, without repetition |
| Vcf.DedupFirstAppearance | backend/src/services/vcfParser.js:60 | the distinct elements come out in order of first appearance |
| Vcf.MockFileExpectation | backend/scripts/verify_backend.js:17-18 | a file with a data line for rs1057910 whose INFO carries `GENE=CYP2C9`, after any other keys, yields gene CYP2C9 and a variant with that rsid |
| Vcf.OfGene | backend/src/routes/analyze.js:73 | `variants.filter(v => v.gene === gene)` keeps exactly the variants of that gene and is no longer than its input |
| Vcf.OfGeneEmpty | backend/src/routes/analyze.js:73 | the filter is empty exactly when no variant has the gene |
| Vcf.OfGeneAppend | backend/src/routes/analyze.js:73 | filtering distributes over concatenation, so the order of the variants is kept |
| Vcf.OfGeneSkip | backend/src/constants/diplotypeLookup.js:75 | a variant of another gene disappears from the filtered list |
| DiplotypeLookup.Row | backend/src/constants/diplotypeLookup.js:11-60 | every row of the table has exactly the keys `0/0`, `0/1`, `1/1` |
| DiplotypeLookup.TableGenotypeKeys | backend/src/constants/diplotypeLookup.js:11-60 | the table's genes are the six genes CYP2C9, CYP2C19, CYP2D6, SLCO1B1, TPMT and DPYD, each with exactly the three genotype keys |
| DiplotypeLookup.GetPhenotype | backend/src/constants/diplotypeLookup.js:68-91 | the corrected lookup gives an answer other than Unknown/Unknown only for a gene of the table |
| DiplotypeLookup.GetPhenotypeAsWritten | backend/src/constants/diplotypeLookup.js:68-91 | as written, a TypeError arises only for an inherited member name that is not a table gene; any other name outside the table gives Unknown/Unknown |
| DiplotypeLookup.FirstRecognisedAsWritten | backend/src/constants/diplotypeLookup.js:82-87 | the first-match loop as written never throws by itself: it returns a table entry, an inherited object, or nothing |
| DiplotypeLookup.UnknownGene | backend/src/constants/diplotypeLookup.js:69-72 | a gene not in the table gives Unknown/Unknown whatever the variants |
| DiplotypeLookup.NoVariantsOfGene | backend/src/constants/diplotypeLookup.js:75-79 | a table gene without variants of that gene gives `*1/*1`, Normal Metabolizer |
| DiplotypeLookup.FirstMatchDecides | backend/src/constants/diplotypeLookup.js:82-87 | the answer is the table entry of the first variant of the gene whose genotype is a non-empty key of the gene's row |
| DiplotypeLookup.FirstRecognisedAt | backend/src/constants/diplotypeLookup.js:75-87 | the first-match loop over the filtered variants stops at the first recognised genotype of that gene |
| DiplotypeLookup.UnrecognisedGenotypes | backend/src/constants/diplotypeLookup.js:89-90 | if the gene has variants but none with a recognised genotype (missing, empty or not a key), the answer is Unknown/Unknown |
| DiplotypeLookup.NoneRecognised | backend/src/constants/diplotypeLookup.js:82-90 | the loop finds nothing when no genotype is recognised |
| DiplotypeLookup.OtherGeneIrrelevant | backend/src/constants/diplotypeLookup.js:75 | inserting a variant of another gene never changes the answer |
| DiplotypeLookup.AnswerRange | backend/src/constants/diplotypeLookup.js:68-91 | the answer is Unknown/Unknown, the wild type, or an entry of the gene's own row |
| DiplotypeLookup.FirstRecognisedRange | backend/src/constants/diplotypeLookup.js:82-87 | what the loop returns is an entry of the row it searched |
| DiplotypeLookup.InheritedGeneIsWildType | backend/src/constants/diplotypeLookup.js:69-79 | as written, the name `constructor` with no variants is reported as `*1/*1`, Normal Metabolizer; the corrected lookup says Unknown/Unknown |
| DiplotypeLookup.FirstRecognisedAgrees | backend/src/constants/diplotypeLookup.js:82-87 | when no genotype is an inherited member name, the loop as written and the corrected loop agree |
| DiplotypeLookup.AsWrittenAgrees | backend/src/constants/diplotypeLookup.js:68-91 | away from inherited member names, the lookup as written returns exactly the corrected lookup's answer |
| CpicRules.DrugKeys | backend/src/constants/cpicRules.js:4-47 | the rule table has exactly six drug keys: WARFARIN, CLOPIDOGREL, CODEINE, SIMVASTATIN, AZATHIOPRINE and FLUOROURACIL |
| CpicRules.DrugNamesUpperCase | backend/src/constants/cpicRules.js:4-47 | every drug key is free of lower-case letters |
| CpicRules.RuleLabels | backend/src/constants/cpicRules.js:7-45 | every risk is Adjust Dosage, Ineffective or Toxic; every severity is Moderate, High or Critical |
| CpicRules.RuleGenesDistinct | backend/src/constants/cpicRules.js:6-41 | different drugs name different genes |
| CpicRules.RuleGenesInTable | backend/src/constants/cpicRules.js:6-41 | every rule's gene is a gene of the diplotype table |
| CpicRules.TableGenesHaveRules | backend/src/constants/diplotypeLookup.js:12-52 | every gene of the diplotype table is named by some rule, so the two gene sets are equal |
| CpicRules.RulePhenotypesInTable | backend/src/constants/cpicRules.js:10-45 | each rule's phenotype is one of the phenotypes the diplotype table lists for the rule's gene |
| RuleEngine.AnalyzeRisk | backend/src/services/ruleEngine.js:10-54 | the label is Unknown exactly for a drug without a rule; a known drug's primary gene is its rule's gene; no diplotype is set |
| RuleEngine.CaseInsensitive | backend/src/services/ruleEngine.js:11-12 | the assessment of a name and of its upper-cased form are equal |
| RuleEngine.UnknownDrug | backend/src/services/ruleEngine.js:14-25 | a drug without a rule gives Unknown, severity None, confidence 0, the fixed recommendation and primary gene and phenotype Unknown |
| RuleEngine.GenePresent | backend/src/services/ruleEngine.js:29-41 | a known drug whose gene was parsed gives the rule's risk, severity, recommendation, gene and phenotype, with confidence 900 thousandths |
| RuleEngine.GeneAbsent | backend/src/services/ruleEngine.js:42-53 | a known drug whose gene is absent gives Safe, severity None, confidence 950 thousandths, "Standard dosing guidelines apply.", the rule's gene and Normal Metabolizer |
| RuleEngine.PrimaryGene | backend/src/services/ruleEngine.js:37-50 | a known drug's primary gene is the rule's gene; no diplotype is ever set |
| RuleEngine.OnlyGeneMembershipMatters | backend/src/services/ruleEngine.js:10-29 | the detected variants are ignored: only the name and whether the rule's gene is among the parsed genes matter |
| RuleEngine.AssessmentRange | backend/src/services/ruleEngine.js:14-53 | the label, the severity and the confidence (0, 900 or 950) always take one of the values listed; the result is Safe exactly when a known drug's gene is absent |
| RuleEngine.PhenotypeFromTable | backend/src/services/ruleEngine.js:14-53 | the phenotype is Unknown, Normal Metabolizer, or a phenotype the diplotype table lists for the primary gene |
| RuleEngine.NoInheritedDrug | backend/src/services/ruleEngine.js:11-12 | no upper-cased name is an inherited object member, so the rule lookup sees only the table's own keys |
| RuleEngine.InheritedHaveLower | backend/src/services/ruleEngine.js:12 | every inherited member name has a lower-case letter |
| RuleEngine.WarfarinWithCyp2c9 | backend/scripts/verify_backend.js:26-33 | WARFARIN with CYP2C9 among the parsed genes gives Adjust Dosage |
| RuleEngine.ClopidogrelWithoutCyp2c19 | backend/scripts/verify_backend.js:35-42 | CLOPIDOGREL without CYP2C19 gives Safe |
| RuleEngine.KnownDrugLabel | backend/src/services/ruleEngine.js:11-41 | a rule key written in upper-case ASCII finds its own rule: Safe without the gene, the rule's risk with it |
| SchemaBuilder.BuildResponse | backend/src/utils/schemaBuilder.js:4-31 | the response's drug name has no lower-case ASCII letter; its diplotype is never empty, and is "Unknown" when the profile's diplotype is missing or empty |
| SchemaBuilder.ResponseFields | backend/src/utils/schemaBuilder.js:4-31 | the response copies the id, timestamp, label, severity, confidence, gene, phenotype, variants, recommendation, explanation texts and parsing flag unchanged; the drug is upper-case and the same for any spelling; the diplotype is never empty: it is the profile's own when that one is non-empty, and "Unknown" when it is missing or empty |
| SchemaBuilder.ParsingSuccessDefault | backend/src/utils/schemaBuilder.js:4 | without the last argument, the response reports a successful parse |
| SchemaBuilder.EngineDiplotypeUnknown | backend/src/utils/schemaBuilder.js:17 | a response built from the rule engine's assessment always reports diplotype Unknown |
| AnalyzeRoute.HandleAnalyze | backend/src/routes/analyze.js:16-92 | the status is 200, 400 or 500; a response body comes exactly with 200; the upload is deleted exactly when there was one |
| AnalyzeRoute.MissingFileFirst | backend/src/routes/analyze.js:19-21 | without a file the reply is 400 "VCF file is required.", whatever the drug field; nothing is deleted |
| AnalyzeRoute.MissingDrug | backend/src/routes/analyze.js:22-26 | with a file but a missing or empty drug field the reply is 400 "Drug name is required." and the upload is deleted |
| AnalyzeRoute.SeveralDrugs | backend/src/routes/analyze.js:28-33 | a comma in the trimmed drug field gives 400 "Only one drug allowed per request." and the upload is deleted |
| AnalyzeRoute.ParseFailure | backend/src/routes/analyze.js:35-44 | a file that cannot be read gives 500 "Failed to parse VCF file."; the engine, the explanation, the clock and the random draw play no part |
| AnalyzeRoute.StatusAndCleanup | backend/src/routes/analyze.js:16-92 | the status is 200 exactly for a valid request with a readable file; only then is the body a response; the upload is deleted exactly when there was one |
| AnalyzeRoute.SuccessfulReply | backend/src/routes/analyze.js:49-90 | a successful reply carries the engine's assessment of the trimmed drug over the parsed file, the upper-cased drug, diplotype Unknown, a successful parse, the patient id, the timestamp and the explanation of that assessment |
| AnalyzeRoute.AssessedVariants | backend/src/routes/analyze.js:71-81 | with a known gene, the reported variants are exactly that gene's parsed variants in file order; otherwise they are all variants; a Safe result reports none; any other known-drug result reports at least one |
| AnalyzeRoute.ReportedVariants | backend/src/routes/analyze.js:71-90 | the reply reports those variants; a Safe reply reports none |
| AnalyzeRoute.DrugTrimmed | backend/src/routes/analyze.js:29-53 | padding the drug field with white space does not change the reply |
| AnalyzeRoute.DepthDefault | backend/src/routes/analyze.js:62 | the depth defaults to "summary" when it is absent or empty, and no depth changes the reply |
| AnalyzeRoute.PatientIdFormat | backend/src/routes/analyze.js:84 | the id is `PATIENT_` and three decimal digits whose value is the random draw (0 to 999) |
| AnalyzeRoute.PatientId | backend/src/routes/analyze.js:84 | any id starts with `PATIENT_` followed by at least three characters |
| GeminiService.Schedule | backend/src/services/geminiService.js:18 | the back-off doubles: the first wait is `baseDelay` and each later wait is twice the one before |
| GeminiService.ScheduleGrows | backend/src/services/geminiService.js:16-20 | each retry appends the next wait to the schedule, so a shorter schedule is a prefix of a longer one |
| GeminiService.Retry | backend/src/services/geminiService.js:11-26 | the retry loop falls through exactly when `maxRetries` is negative, and otherwise makes between 1 and `maxRetries + 1` calls |
| GeminiService.WithRetry | backend/src/services/geminiService.js:11-26 | the attempt loop, with early return and rethrow, ends as `Retry` says |
| GeminiService.RetryDecided | backend/src/services/geminiService.js:12-23 | the loop ends at the first call that succeeds, fails without rate limiting, or is the last allowed. It returns that call's value or rethrows its error after `k + 1` calls and the waits of the schedule |
| GeminiService.RetryFromDecided | backend/src/services/geminiService.js:12-23 | the same, from any attempt reached by rate-limited calls |
| GeminiService.RetryShape | backend/src/services/geminiService.js:11-26 | the loop falls through (returns `undefined`) exactly when `maxRetries` is negative. Otherwise it makes between 1 and `maxRetries + 1` calls, and all calls but the last were rate limited |
| GeminiService.RetryFromShape | backend/src/services/geminiService.js:12-23 | the same bound and shape from any attempt on |
| GeminiService.OtherErrorNotRetried | backend/src/services/geminiService.js:16-23 | an error not mentioning 429 or Too Many Requests is rethrown after one call, with no wait |
| GeminiService.LastRateLimitRethrown | backend/src/services/geminiService.js:17-22 | rate limiting on every allowed call: after `maxRetries + 1` calls and the whole schedule of waits, the last error is rethrown |
| GeminiService.CallSiteSchedule | backend/src/services/geminiService.js:89-91 | with (3, 3000) at most four calls are made, and the waits are a prefix of 3000, 6000, 12000 ms |
| GeminiService.CleanText | backend/src/services/geminiService.js:97 | the cleaned reply contains no triple backtick and has no leading or trailing white space |
| GeminiService.NoFenceAfterCleanup | backend/src/services/geminiService.js:97 | the cleaned reply has no fence and no outer white space, and the clean-up removes nothing else: a reply without fences or outer white space comes out unchanged |
| GeminiService.CleanupIdempotent | backend/src/services/geminiService.js:97 | cleaning a cleaned reply changes nothing |
| GeminiService.ParsedReplyFields | backend/src/services/geminiService.js:99-104 | a non-empty `summary` is used as is, else "Explanation unavailable."; `expanded` falls back to `details`, then to "Detailed explanation unavailable."; neither text is empty |
| GeminiService.RawReplyFields | backend/src/services/geminiService.js:105-111 | for a reply that is not JSON, `expanded` is the whole cleaned text and `summary` is its first 200 characters (or all of it) |
| GeminiService.ReplyExplanation | backend/src/services/geminiService.js:99-111 | from a parsed JSON value neither text is empty; otherwise `expanded` is the cleaned reply and `summary` a prefix of it |
| GeminiService.FallbackExplanation | backend/src/services/geminiService.js:120-125 | both fallback texts contain the gene, the phenotype, the drug and the risk label |
| GeminiService.GenerateExplanation | backend/src/services/geminiService.js:37-118 | the explanation is either the fallback or the one read from a cleaned model reply and its parse; without an API key it is the fallback |
| GeminiService.ModelCallDecides | backend/src/services/geminiService.js:89-117 | with an API key, the call that decides the retry loop decides the result: its reply becomes the explanation read from the cleaned text, and any error the loop rethrows gives the fallback |
| GeminiService.SomeCallDecides | backend/src/services/geminiService.js:11-26 | among the four calls the service allows, some call always decides the loop, so `ModelCallDecides` covers every model behaviour |
| GeminiService.NoKeyFallback | backend/src/services/geminiService.js:40-43 | without an API key the result is the fallback explanation |
| GeminiService.ModelFailureFallback | backend/src/services/geminiService.js:89-117 | a first model call failing without rate limiting gives the fallback explanation |
| GeminiService.RateLimitFallback | backend/src/services/geminiService.js:89-117 | rate limiting on all four allowed calls gives the fallback explanation |
| GeminiService.RagFailureNotice | backend/src/services/geminiService.js:55-58 | a failed retrieval acts exactly as a context of "CPIC guidelines unavailable at this time." |
| GeminiService.DepthIgnored | backend/src/services/geminiService.js:37 | the requested depth does not change the explanation |
| Retrieve.QueryText | rag_data/retrieve.py:15 | the query starts with "Gene: " and names the gene, the drug and the phenotype |
| Retrieve.Context | rag_data/retrieve.py:23-29 | the context never starts or ends with white space |
| Retrieve.RetrieveContext | rag_data/retrieve.py:9-29 | the query and the `+=` loop over the first document list give exactly `Context` of the store's answer to `QueryText` with 3 results |
| Retrieve.AccumulateAppend | rag_data/retrieve.py:25-27 | one more document appends that document and a blank line |
| Retrieve.AccumulateJoin | rag_data/retrieve.py:25-27 | the accumulated text is the documents in returned order joined by blank lines, plus a final blank line |
| Retrieve.NoDocumentsEmptyContext | rag_data/retrieve.py:23-29 | a missing or empty answer, or an empty document list, gives the empty string |
| Retrieve.FirstListOnly | rag_data/retrieve.py:25 | only the first query's document list is read |
| Retrieve.ContextJoinsDocuments | rag_data/retrieve.py:23-29 | when the documents have no outer white space, the context is exactly the documents joined by blank lines |
| Text.StripSpec | backend/src/routes/analyze.js:29 | `trim`/`strip` returns a contiguous middle of its input that neither starts nor ends with white space; everything cut off is white space |
| Text.StripNoop | rag_data/retrieve.py:29 | stripping a text without outer white space leaves it unchanged |
| Text.StripTrailingAdded | rag_data/retrieve.py:27-29 | stripping a text with white space appended gives the text back when it has no outer white space |
| Text.UpperIdempotent | backend/src/services/ruleEngine.js:11 | upper-casing twice is upper-casing once |
| Text.UpperHasNoLower | backend/src/services/ruleEngine.js:11 | an upper-cased text has no lower-case ASCII letter |
| Text.UpperFixesUpperAscii | backend/src/services/ruleEngine.js:11 | an ASCII text without lower-case letters is its own upper case |
| Text.UpperAppend | backend/src/utils/schemaBuilder.js:7 | upper-casing distributes over concatenation |
| Text.SplitOn | backend/src/services/vcfParser.js:45-47 | `split(':')` gives at least one part, and no part contains the separator |
| Text.SplitOnJoin | backend/src/services/vcfParser.js:45-47 | `split(sep)` of parts without `sep` joined by `sep` gives the parts back |
| Text.JoinSplitOn | backend/src/services/vcfParser.js:45-47 | joining the parts of `split(sep)` with `sep` gives the text back |
| Text.IndexOf | backend/src/services/vcfParser.js:45 | `indexOf` gives -1 exactly when the element is absent, else the first position holding it |
| Text.TakeUntil | backend/src/services/vcfParser.js:33 | `[^;]+` takes the longest prefix free of `;` |
| Text.RemoveAbsent | backend/src/services/geminiService.js:97 | `replace(/pat/g, '')` leaves a text in which `pat` does not occur unchanged |
| Text.RemoveRunLeavesNone | backend/src/services/geminiService.js:97 | after `replace(/```/g, '')` no run of three backticks is left anywhere |
| Text.Prefix | backend/src/services/geminiService.js:109 | `substring(0, n)` is a prefix of length min(n, length) |
| Text.DecimalValue | backend/src/routes/analyze.js:84 | the decimal text of a number denotes that number |
| Text.PadStartZeros | backend/src/routes/analyze.js:84 | `padStart(w, '0')` gives a text of at least `w` digits with the same value |

## Left out

- User interface, server set-up and scripts: the React front end, the Express and multer plumbing (including the 5 MB limit), the model-listing and network probe scripts, and the indexing script and FastAPI wrapper of the retrieval service.
- File system: reading the upload line by line is replaced by its sequence of lines, or `None` when reading fails. Deleting it is the `fileRemoved` flag of the outcome.
- External services become inputs: the HTTP call to the retrieval service, the embedding model, the vector store, the language model and `JSON.parse`. The vector store is a function from query text and result count to its `documents` field. `JSON.parse` is a function to a reduced parse result. Each model call is a function from the prompt and the call number to success or an error message.
- Prompt wording: the prompt is modelled as the data it is built from. Its wording is not modelled.
- Randomness and the clock: the random draw for the patient id and the ISO timestamp are parameters.
- Waiting: `setTimeout` and logging are left out. `WithRetry` returns its list of waits instead of sleeping.
- Floating point: confidence scores are in thousandths.
- GeminiService.ReplyExplanation: only string (or missing) `summary`, `expanded` and `details` fields are modelled. JSON values of other types (numbers, objects) are not.
- GeminiService.GenerateExplanation: `response.text()` throwing is not modelled separately. It would also end in the fallback.
- AnalyzeRoute.HandleAnalyze: the outer `catch` that answers 500 "Internal Server Error" is not modelled. No modelled step throws there.
- Text.Upper: `toUpperCase` is modelled for ASCII letters and for the characters whose upper case is pure ASCII. Other non-ASCII characters are left unchanged, and the one-to-many mappings outside that set are not modelled.
- Text.Prefix: `substring` counts UTF-16 code units. The model counts characters, which is the same for text in the Basic Multilingual Plane.
- Line splitting: splitting the file into lines is done by `readline` and is not part of this model.
- The explanation depth: it is passed on but never used by the service, and the model shows it has no effect.
- Test data: the mock VCF file of the verification script is not part of this model. Its expectation is stated for any file holding such a line (`Vcf.MockFileExpectation`).

## Findings

| source | as written | input that shows it | evidently intended | confidence | as-written member | corrected member |
|---|---|---|---|---|---|---|
| backend/src/constants/diplotypeLookup.js:69 | `DIPLOTYPE_TABLE[gene]` indexes a plain object, so names every object inherits (`constructor`, `toString`, `__proto__`, …) pass the `!lookup` test | `getPhenotype("constructor", [])` returns `*1/*1`, Normal Metabolizer; with a variant of gene `constructor` with genotype `0/1`, reading `lookup.genotypes[gt]` throws a TypeError | only the six genes of the table are known; any other name gives Unknown/Unknown | medium (not executed) | DiplotypeLookup.InheritedGeneIsWildType | DiplotypeLookup.UnknownGene |
