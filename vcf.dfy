/**
 * Extraction of pharmacogenomic variants from the data lines of a VCF
 * (Variant Call Format 4.x) file: columns CHROM POS ID REF ALT QUAL FILTER INFO,
 * then FORMAT and the sample columns.  The file is given as its sequence of lines.
 */
module Vcf {
  import opened Wrappers
  import opened Text

  /** The genotype of a variant: JSON `null` when the line has no sample column or
      FORMAT has no GT key, `undefined` when the sample has fewer subfields than
      GT's position, and otherwise the called subfield. */
  datatype Genotype = Null | Undefined | Called(gt: string)

  datatype Variant = Variant(gene: string, rsid: string, genotype: Genotype)

  /** Genes in order of first appearance, and the variants in line order. */
  datatype ParseResult = ParseResult(genes: seq<string>, variants: seq<Variant>)

  /** Splitting a line by the regular expression `/\t|\s{2,}|\s+/`: a tab is a
      delimiter on its own; any other whitespace character starts a delimiter
      that extends over the whole run of whitespace after it. */
  function SplitColumns(line: string): (cols: seq<string>)
    ensures |cols| >= 1
    ensures forall k :: 0 <= k < |cols| ==> NoneSatisfy(cols[k], IsJsSpace)
    decreases |line|
  {
    if line == [] then [""]
    else if line[0] == '\t' then [""] + SplitColumns(line[1..])
    else if IsJsSpace(line[0]) then [""] + SplitColumns(DropLeading(line, IsJsSpace))
    else
      var rest := SplitColumns(line[1..]);
      [[line[0]] + rest[0]] + rest[1..]
  }

  /** A character that is not whitespace is glued to the first column of what follows it. */
  lemma SplitColumnsCons(c: char, rest: string)
    requires !IsJsSpace(c)
    ensures var s := SplitColumns(rest);
      SplitColumns([c] + rest) == [[c] + s[0]] + s[1..]
  {
    assert ([c] + rest)[1..] == rest;
  }

  /** A word without whitespace is glued to the first column of what follows it. */
  lemma {:induction false} SplitColumnsWord(w: string, rest: string)
    requires NoneSatisfy(w, IsJsSpace)
    ensures var s := SplitColumns(rest);
      SplitColumns(w + rest) == [w + s[0]] + s[1..]
  {
    var s := SplitColumns(rest);
    if w != [] {
      NoneSatisfyTail(w, IsJsSpace);
      SplitColumnsWord(w[1..], rest);
      assert w + rest == [w[0]] + (w[1..] + rest);
      SplitColumnsCons(w[0], w[1..] + rest);
      assert [w[0]] + (w[1..] + s[0]) == w + s[0];
    } else {
      assert w + rest == rest;
      assert w + s[0] == s[0];
      assert s == [s[0]] + s[1..];
    }
  }

  /** Tab-joined columns without whitespace are split back into exactly those columns. */
  lemma {:induction false} SplitColumnsJoin(cols: seq<string>)
    requires |cols| >= 1
    requires forall k :: 0 <= k < |cols| ==> NoneSatisfy(cols[k], IsJsSpace)
    ensures SplitColumns(Join(cols, "\t")) == cols
  {
    if |cols| == 1 {
      SplitColumnsWord(cols[0], "");
      assert cols[0] + "" == cols[0];
    } else {
      var tail := Join(cols[1..], "\t");
      SplitColumnsJoin(cols[1..]);
      assert ("\t" + tail)[1..] == tail;
      assert SplitColumns("\t" + tail) == [""] + cols[1..];
      assert Join(cols, "\t") == cols[0] + ("\t" + tail);
      SplitColumnsWord(cols[0], "\t" + tail);
      assert cols[0] + "" == cols[0];
    }
  }

  const GenePrefix: string := "GENE="

  /** `/GENE=([^;]+)/` matches at position `i` of the INFO text. */
  predicate GeneAt(info: string, i: int)
  {
    0 <= i && i + |GenePrefix| < |info| && info[i..i + |GenePrefix|] == GenePrefix &&
    info[i + |GenePrefix|] != ';'
  }

  /** The leftmost match position at or after `from`. */
  function FirstGeneAt(info: string, from: nat): (r: Option<nat>)
    requires from <= |info|
    ensures r.Some? ==> from <= r.value && GeneAt(info, r.value)
    ensures r.Some? ==> forall j :: from <= j < r.value ==> !GeneAt(info, j)
    ensures r.None? ==> forall j :: from <= j < |info| ==> !GeneAt(info, j)
    decreases |info| - from
  {
    if from == |info| then None
    else if GeneAt(info, from) then Some(from)
    else FirstGeneAt(info, from + 1)
  }

  /** The capture group of `info.match(/GENE=([^;]+)/)`, if the regex matches:
      the leftmost `GENE=` that is followed by a character other than `;`, and
      from there everything up to the next `;` or the end. */
  function GeneMatch(info: string): (r: Option<string>)
    ensures r.None? <==> forall j :: 0 <= j < |info| ==> !GeneAt(info, j)
    ensures r.Some? ==> r.value != [] && ';' !in r.value && IsInfix(GenePrefix + r.value, info)
  {
    match FirstGeneAt(info, 0)
    case None => None
    case Some(i) =>
      var g := TakeUntil(info[i + |GenePrefix|..], ';');
      assert info[i..i + |GenePrefix|] == GenePrefix;
      assert info[i..i + |GenePrefix| + |g|] == GenePrefix + g;
      assert InfixAt(GenePrefix + g, info, i);
      Some(g)
  }

  /** The gene read is the text after the leftmost usable `GENE=`, up to the
      next `;` or the end of INFO. */
  lemma GeneMatchLeftmost(info: string) returns (i: nat)
    requires GeneMatch(info).Some?
    ensures var g := GeneMatch(info).value;
      GeneAt(info, i) && (forall j :: 0 <= j < i ==> !GeneAt(info, j)) &&
      StartsWith(info[i + |GenePrefix|..], g) &&
      (i + |GenePrefix| + |g| == |info| || info[i + |GenePrefix| + |g|] == ';')
  {
    i := FirstGeneAt(info, 0).value;
  }

  /** The genotype read from the FORMAT (index 8) and first sample (index 9)
      columns: a called genotype needs a sample column and a GT key in FORMAT,
      and is one `:`-free subfield of the sample. */
  function GenotypeOf(columns: seq<string>): (r: Genotype)
    ensures r.Called? ==> |columns| > 9 && "GT" in SplitOn(columns[8], ':') && ':' !in r.gt
  {
    if |columns| > 9 then
      var gtIndex := IndexOf(SplitOn(columns[8], ':'), "GT");
      if gtIndex == -1 then Null
      else
        var fields := SplitOn(columns[9], ':');
        if gtIndex < |fields| then Called(fields[gtIndex]) else Undefined
    else Null
  }

  /** A line with no sample column has a `null` genotype. */
  lemma GenotypeWithoutSample(columns: seq<string>)
    requires |columns| <= 9
    ensures GenotypeOf(columns) == Null
  {
  }

  /** The genotype of a line whose FORMAT column is `keys` joined by `:` and whose
      sample column is `vals` joined by `:`: `null` without a GT key; otherwise the
      value at the first GT position, or `undefined` when the sample has fewer
      values.  (Every column has this form, with the parts `SplitOn` gives.) */
  lemma GenotypeOfFields(columns: seq<string>, keys: seq<string>, vals: seq<string>)
    requires |columns| > 9 && |keys| >= 1 && |vals| >= 1
    requires forall k :: 0 <= k < |keys| ==> ':' !in keys[k]
    requires forall k :: 0 <= k < |vals| ==> ':' !in vals[k]
    requires columns[8] == Join(keys, ":") && columns[9] == Join(vals, ":")
    ensures "GT" !in keys ==> GenotypeOf(columns) == Null
    ensures forall k :: 0 <= k < |keys| && keys[k] == "GT" && (forall j :: 0 <= j < k ==> keys[j] != "GT") ==>
      GenotypeOf(columns) == if k < |vals| then Called(vals[k]) else Undefined
  {
    SplitOnJoin(keys, ':');
    SplitOnJoin(vals, ':');
    assert SplitOn(columns[8], ':') == keys;
    assert SplitOn(columns[9], ':') == vals;
    var r := IndexOf(keys, "GT");
    forall k | 0 <= k < |keys| && keys[k] == "GT" && (forall j :: 0 <= j < k ==> keys[j] != "GT")
      ensures GenotypeOf(columns) == if k < |vals| then Called(vals[k]) else Undefined
    {
      assert r != -1;
      assert !(r < k) && !(k < r);
    }
  }

  /** The variant the columns of a data line give, if any: at least 8 columns,
      an ID other than empty or `.`, and a GENE tag in INFO. */
  function RecordVariant(columns: seq<string>): Option<Variant>
  {
    if |columns| < 8 then None
    else if columns[2] == "" || columns[2] == "." then None
    else match GeneMatch(columns[7])
      case None => None
      case Some(gene) => Some(Variant(gene, columns[2], GenotypeOf(columns)))
  }

  /** The variant a single line contributes, if any: none for header lines. */
  function LineVariant(line: string): Option<Variant>
  {
    if StartsWith(line, "#") then None else RecordVariant(SplitColumns(line))
  }

  function Emitted(line: string): seq<Variant>
  {
    match LineVariant(line)
    case None => []
    case Some(v) => [v]
  }

  /** The variants of all lines, in line order. */
  function Variants(lines: seq<string>): seq<Variant>
  {
    if lines == [] then []
    else Variants(lines[..|lines| - 1]) + Emitted(lines[|lines| - 1])
  }

  function GenesOf(vs: seq<Variant>): seq<string>
  {
    if vs == [] then [] else GenesOf(vs[..|vs| - 1]) + [vs[|vs| - 1].gene]
  }

  /** The distinct elements, in order of first appearance (what `Array.from`
      of an insertion-ordered `Set` gives). */
  function Dedup(xs: seq<string>): seq<string>
  {
    if xs == [] then []
    else
      var d := Dedup(xs[..|xs| - 1]);
      if xs[|xs| - 1] in d then d else d + [xs[|xs| - 1]]
  }

  function Parse(lines: seq<string>): ParseResult
  {
    var variants := Variants(lines);
    ParseResult(Dedup(GenesOf(variants)), variants)
  }

  /** The line loop: header lines and lines without a usable ID or GENE tag are
      skipped; every other line adds its gene to the gene set and appends a variant. */
  method ParseVcf(lines: seq<string>) returns (result: ParseResult)
    ensures result == Parse(lines)
  {
    var genes: seq<string> := [];
    var variants: seq<Variant> := [];
    for i := 0 to |lines|
      invariant variants == Variants(lines[..i])
      invariant genes == Dedup(GenesOf(variants))
    {
      var line := lines[i];
      VariantsStep(lines, i);
      if StartsWith(line, "#") {
        continue;
      }
      var columns := SplitColumns(line);
      if |columns| < 8 {
        continue;
      }
      var rsid := columns[2];
      if rsid == "" || rsid == "." {
        continue;
      }
      var geneMatch := GeneMatch(columns[7]);
      if geneMatch.Some? {
        var gene := geneMatch.value;
        if gene !in genes {
          genes := genes + [gene];
        }
        var genotype := Null;
        if |columns| > 9 {
          var format := columns[8];
          var sampleData := columns[9];
          var gtIndex := IndexOf(SplitOn(format, ':'), "GT");
          if gtIndex != -1 {
            var fields := SplitOn(sampleData, ':');
            genotype := if gtIndex < |fields| then Called(fields[gtIndex]) else Undefined;
          }
        }
        assert LineVariant(line) == Some(Variant(gene, rsid, genotype));
        GenesStep(variants, Variant(gene, rsid, genotype));
        variants := variants + [Variant(gene, rsid, genotype)];
      }
    }
    assert lines[..|lines|] == lines;
    result := ParseResult(genes, variants);
  }

  /** One more line adds its own variant, if any, at the end. */
  lemma VariantsStep(lines: seq<string>, i: nat)
    requires i < |lines|
    ensures Variants(lines[..i + 1]) == Variants(lines[..i]) + Emitted(lines[i])
  {
    assert lines[..i + 1][..i] == lines[..i];
  }

  /** One more variant adds its gene to the gene list unless it is there already. */
  lemma GenesStep(vs: seq<Variant>, v: Variant)
    ensures var d := Dedup(GenesOf(vs));
      Dedup(GenesOf(vs + [v])) == if v.gene in d then d else d + [v.gene]
  {
    assert (vs + [v])[..|vs|] == vs;
  }

  /** `variants.filter(v => v.gene === gene)`. */
  function OfGene(vs: seq<Variant>, gene: string): (r: seq<Variant>)
    ensures |r| <= |vs|
    ensures forall v :: v in r <==> v in vs && v.gene == gene
  {
    if vs == [] then []
    else (if vs[0].gene == gene then [vs[0]] else []) + OfGene(vs[1..], gene)
  }

  /** The filter comes out empty exactly when no variant is of the gene. */
  lemma OfGeneEmpty(vs: seq<Variant>, gene: string)
    ensures OfGene(vs, gene) == [] <==> forall v :: v in vs ==> v.gene != gene
  {
    var r := OfGene(vs, gene);
    if r != [] {
      assert r[0] in r;
    }
  }

  /** Filtering distributes over concatenation, so it keeps the order of the input. */
  lemma {:induction false} OfGeneAppend(a: seq<Variant>, b: seq<Variant>, gene: string)
    ensures OfGene(a + b, gene) == OfGene(a, gene) + OfGene(b, gene)
  {
    if a != [] {
      assert (a + b)[1..] == a[1..] + b;
      OfGeneAppend(a[1..], b, gene);
    } else {
      assert a + b == b;
    }
  }

  /** A variant of another gene disappears from the filtered list. */
  lemma OfGeneSkip(before: seq<Variant>, v: Variant, after: seq<Variant>, gene: string)
    requires v.gene != gene
    ensures OfGene(before + [v] + after, gene) == OfGene(before + after, gene)
  {
    OfGeneAppend(before + [v], after, gene);
    OfGeneAppend(before, [v], gene);
    OfGeneAppend(before, after, gene);
    assert OfGene([v], gene) == [] + OfGene([], gene);
  }

  // ---------------------------------------------------------------------------
  // Properties of the extraction

  lemma {:induction false} VariantsAppend(a: seq<string>, b: seq<string>)
    ensures Variants(a + b) == Variants(a) + Variants(b)
    decreases |b|
  {
    if b == [] {
      assert a + b == a;
    } else {
      var b' := b[..|b| - 1];
      assert (a + b)[..|a + b| - 1] == a + b';
      VariantsAppend(a, b');
    }
  }

  /** A line that contributes no variant can be removed without changing the result. */
  lemma SkippedLineInvisible(before: seq<string>, line: string, after: seq<string>)
    requires LineVariant(line).None?
    ensures Parse(before + [line] + after) == Parse(before + after)
  {
    SkippedLineVariants(before, line, after);
  }

  lemma SkippedLineVariants(before: seq<string>, line: string, after: seq<string>)
    requires Emitted(line) == []
    ensures Variants(before + [line] + after) == Variants(before + after)
  {
    VariantsSingle(line);
    VariantsDropEmpty(before, [line], after);
  }

  lemma VariantsDropEmpty(before: seq<string>, mid: seq<string>, after: seq<string>)
    requires Variants(mid) == []
    ensures Variants(before + mid + after) == Variants(before + after)
  {
    VariantsAppend(before + mid, after);
    VariantsAppend(before, mid);
    VariantsAppend(before, after);
  }

  lemma VariantsSingle(line: string)
    ensures Variants([line]) == Emitted(line)
  {
    assert [line][..0] == [];
  }

  /** Header lines (those starting with `#`) never produce a variant or a gene. */
  lemma HeaderLineIgnored(before: seq<string>, line: string, after: seq<string>)
    requires |line| > 0 && line[0] == '#'
    ensures Parse(before + [line] + after) == Parse(before + after)
  {
    assert StartsWith(line, "#");
    SkippedLineInvisible(before, line, after);
  }

  /** A line with fewer than 8 columns, or whose ID column is empty or `.`, is skipped. */
  lemma UnusableLineIgnored(before: seq<string>, line: string, after: seq<string>)
    requires var cols := SplitColumns(line);
      |cols| < 8 || cols[2] == "" || cols[2] == "."
    ensures Parse(before + [line] + after) == Parse(before + after)
  {
    SkippedLineInvisible(before, line, after);
  }

  /** A recorded variant comes from a data line with at least 8 columns: its
      rsid is the ID column (neither empty nor `.`), and its gene is a non-empty
      `;`-free text that follows `GENE=` in the INFO column. */
  lemma AcceptedLine(line: string)
    requires LineVariant(line).Some?
    ensures var v := LineVariant(line).value; var cols := SplitColumns(line);
      !StartsWith(line, "#") && |cols| >= 8 && v.rsid == cols[2] && v.rsid != "" && v.rsid != "." &&
      v.gene != [] && ';' !in v.gene && IsInfix(GenePrefix + v.gene, cols[7]) &&
      NoneSatisfy(v.rsid, IsJsSpace)
  {
  }

  /** A GENE tag in INFO whose value is followed by `;` or ends the column is read whole. */
  lemma GeneMatchOfTag(before: string, gene: string, after: string)
    requires forall j :: 0 <= j < |before| ==> !GeneAt(before + GenePrefix + gene + after, j)
    requires gene != [] && ';' !in gene
    requires after == [] || after[0] == ';'
    ensures GeneMatch(before + GenePrefix + gene + after) == Some(gene)
  {
    var info := before + GenePrefix + gene + after;
    var i := |before|;
    assert GeneAt(info, i) by {
      assert info[i..i + |GenePrefix|] == GenePrefix;
    }
    var r := FirstGeneAt(info, 0);
    assert r == Some(i);
    var s := info[i + |GenePrefix|..];
    assert TakeUntil(s, ';') == gene by {
      assert s == gene + after;
      assert s[..|gene|] == gene;
    }
  }

  /** The genes of a list of variants, read back as a membership test. */
  lemma {:induction false} GenesOfMembers(vs: seq<Variant>, g: string)
    ensures g in GenesOf(vs) <==> exists v :: v in vs && v.gene == g
    ensures |GenesOf(vs)| == |vs|
  {
    if vs != [] {
      var vs' := vs[..|vs| - 1];
      GenesOfMembers(vs', g);
      assert vs == vs' + [vs[|vs| - 1]];
      if g in GenesOf(vs) && g !in GenesOf(vs') {
        assert vs[|vs| - 1] in vs;
      }
      if exists v :: v in vs && v.gene == g {
        var v :| v in vs && v.gene == g;
        if v !in vs' {
          assert v == vs[|vs| - 1];
        }
      }
    }
  }

  lemma {:induction false} DedupSpec(xs: seq<string>)
    ensures forall x :: x in Dedup(xs) <==> x in xs
    ensures forall i, j :: 0 <= i < j < |Dedup(xs)| ==> Dedup(xs)[i] != Dedup(xs)[j]
  {
    if xs != [] {
      var xs' := xs[..|xs| - 1];
      DedupSpec(xs');
      assert xs == xs' + [xs[|xs| - 1]];
    }
  }

  lemma {:induction false} IndexOfAppend(xs: seq<string>, y: string, x: string)
    ensures x in xs ==> IndexOf(xs + [y], x) == IndexOf(xs, x)
    ensures x !in xs && x == y ==> IndexOf(xs + [y], x) == |xs|
  {
    if xs != [] {
      assert (xs + [y])[1..] == xs[1..] + [y];
      IndexOfAppend(xs[1..], y, x);
    }
  }

  /** The distinct genes come out in the order in which they first appear. */
  lemma {:induction false} DedupFirstAppearance(xs: seq<string>)
    ensures forall i, j :: 0 <= i < j < |Dedup(xs)| ==>
      IndexOf(xs, Dedup(xs)[i]) < IndexOf(xs, Dedup(xs)[j])
  {
    if xs != [] {
      var xs' := xs[..|xs| - 1];
      var y := xs[|xs| - 1];
      assert xs == xs' + [y];
      DedupFirstAppearance(xs');
      DedupSpec(xs');
      var d := Dedup(xs);
      forall i, j | 0 <= i < j < |d|
        ensures IndexOf(xs, d[i]) < IndexOf(xs, d[j])
      {
        IndexOfAppend(xs', y, d[i]);
        IndexOfAppend(xs', y, d[j]);
      }
    }
  }

  /** The gene list has no duplicates, is in order of first appearance among
      the variants, and holds exactly the genes of the returned variants. */
  lemma ParseGenes(lines: seq<string>)
    ensures var p := Parse(lines);
      (forall i, j :: 0 <= i < j < |p.genes| ==> p.genes[i] != p.genes[j]) &&
      (forall g :: g in p.genes <==> exists v :: v in p.variants && v.gene == g) &&
      (forall i, j :: 0 <= i < j < |p.genes| ==>
        IndexOf(GenesOf(p.variants), p.genes[i]) < IndexOf(GenesOf(p.variants), p.genes[j]))
  {
    var p := Parse(lines);
    DedupSpec(GenesOf(p.variants));
    DedupFirstAppearance(GenesOf(p.variants));
    forall g
      ensures g in p.genes <==> exists v :: v in p.variants && v.gene == g
    {
      GenesOfMembers(p.variants, g);
    }
  }

  lemma GeneOfVariantListed(lines: seq<string>, v: Variant)
    requires v in Parse(lines).variants
    ensures v.gene in Parse(lines).genes
  {
    var vs := Variants(lines);
    GenesOfMembers(vs, v.gene);
    DedupSpec(GenesOf(vs));
  }

  /** Every variant comes from one line, and at most one variant per line. */
  lemma {:induction false} VariantsFromLines(lines: seq<string>)
    ensures |Variants(lines)| <= |lines|
    ensures forall v :: v in Variants(lines) ==> exists i :: 0 <= i < |lines| && LineVariant(lines[i]) == Some(v)
  {
    if lines != [] {
      var ls := lines[..|lines| - 1];
      VariantsFromLines(ls);
      forall v | v in Variants(lines)
        ensures exists i :: 0 <= i < |lines| && LineVariant(lines[i]) == Some(v)
      {
        if v in Variants(ls) {
          var i :| 0 <= i < |ls| && LineVariant(ls[i]) == Some(v);
          assert lines[i] == ls[i];
        } else {
          assert LineVariant(lines[|lines| - 1]) == Some(v);
        }
      }
    }
  }

  lemma TaggedRecordVariant(cols: seq<string>, pre: string, gene: string, rest: string)
    requires |cols| >= 8 && cols[2] != "" && cols[2] != "." && cols[7] == pre + GenePrefix + gene + rest
    requires forall j :: 0 <= j < |pre| ==> !GeneAt(cols[7], j)
    requires gene != [] && ';' !in gene && (rest == [] || rest[0] == ';')
    ensures RecordVariant(cols) == Some(Variant(gene, cols[2], GenotypeOf(cols)))
  {
    GeneMatchOfTag(pre, gene, rest);
  }

  /** The variant list of a file holds, at the place of its line, the variant of
      every data line whose ID column is usable and whose INFO column carries a
      GENE tag with no usable `GENE=` before it (other keys may come first); and
      the gene list holds that gene. */
  lemma {:induction false} TaggedLineRecorded(before: seq<string>, line: string, after: seq<string>,
                                             pre: string, gene: string, rest: string)
    requires line != [] && line[0] != '#'
    requires var cols := SplitColumns(line);
      |cols| >= 8 && cols[2] != "" && cols[2] != "." && cols[7] == pre + GenePrefix + gene + rest &&
      forall j :: 0 <= j < |pre| ==> !GeneAt(cols[7], j)
    requires gene != [] && ';' !in gene && (rest == [] || rest[0] == ';')
    ensures var p := Parse(before + [line] + after); var cols := SplitColumns(line);
      var v := Variant(gene, cols[2], GenotypeOf(cols));
      p.variants == Variants(before) + [v] + Variants(after) && gene in p.genes
  {
    var cols := SplitColumns(line);
    var v := Variant(gene, cols[2], GenotypeOf(cols));
    TaggedRecordVariant(cols, pre, gene, rest);
    assert LineVariant(line) == Some(v) by {
      assert !StartsWith(line, "#");
    }
    VariantsAround(before, line, after);
    assert Emitted(line) == [v];
    GeneOfVariantListed(before + [line] + after, v);
  }

  /** The variants of a file are those of the lines before a line, then the
      line's own, then those of the lines after it. */
  lemma VariantsAround(before: seq<string>, line: string, after: seq<string>)
    ensures Variants(before + [line] + after) == Variants(before) + Emitted(line) + Variants(after)
  {
    VariantsSingle(line);
    VariantsAppend(before + [line], after);
    VariantsAppend(before, [line]);
  }

  /** The backend's self-check on its mock file: a file with a data line for
      rs1057910 tagged GENE=CYP2C9 (after any other INFO keys) yields CYP2C9
      among the genes and a variant with that rsid, whatever the other lines are. */
  lemma MockFileExpectation(before: seq<string>, line: string, after: seq<string>, pre: string, rest: string)
    requires line != [] && line[0] != '#'
    requires var cols := SplitColumns(line);
      |cols| >= 8 && cols[2] == "rs1057910" && cols[7] == pre + GenePrefix + "CYP2C9" + rest &&
      forall j :: 0 <= j < |pre| ==> !GeneAt(cols[7], j)
    requires rest == [] || rest[0] == ';'
    ensures var p := Parse(before + [line] + after);
      "CYP2C9" in p.genes && exists v :: v in p.variants && v.rsid == "rs1057910"
  {
    TaggedLineRecorded(before, line, after, pre, "CYP2C9", rest);
    var p := Parse(before + [line] + after);
    var cols := SplitColumns(line);
    var v := Variant("CYP2C9", cols[2], GenotypeOf(cols));
    assert p.variants[|Variants(before)|] == v;
    assert v.rsid == "rs1057910";
  }
}
