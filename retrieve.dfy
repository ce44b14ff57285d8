/**
 * The retrieval side of the guideline service: the query sent to the vector
 * store for a gene, drug and phenotype, and how the documents it returns are
 * assembled into one context text. The store (embedding model and index) is an
 * input: a function from the query text and the number of results asked for to
 * the `documents` field of its answer.
 */
module Retrieve {
  import opened Wrappers
  import opened Text

  /** The number of documents asked of the store. */
  const NResults: nat := 3

  /** The query text for one gene, drug and phenotype; it names all three. */
  function QueryText(gene: string, drug: string, phenotype: string): (q: string)
    ensures StartsWith(q, "Gene: ") && IsInfix(gene, q) && IsInfix(drug, q) && IsInfix(phenotype, q)
  {
    var q := "Gene: " + gene + ", Drug: " + drug + ", Phenotype: " + phenotype;
    assert q[..6] == "Gene: ";
    assert InfixAt(gene, q, 6);
    assert InfixAt(drug, q, 6 + |gene| + 8);
    assert InfixAt(phenotype, q, |q| - |phenotype|);
    q
  }

  /** The separator written after every document: a blank line. */
  const BlankLine := "\n\n"

  /** The text accumulated from a document list, each document followed by a blank line. */
  function Accumulate(docs: seq<string>): string
  {
    if docs == [] then "" else docs[0] + BlankLine + Accumulate(docs[1..])
  }

  /** The context for the store's `documents` field: empty when it is missing or
      empty, otherwise the first query's documents, accumulated and stripped, so
      it never starts or ends with white space. */
  function Context(documents: Option<seq<seq<string>>>): (c: string)
    ensures c == [] || (!IsPySpace(c[0]) && !IsPySpace(c[|c| - 1]))
  {
    if documents.None? || documents.value == [] then ""
    else
      StripEnds(Accumulate(documents.value[0]), IsPySpace);
      PyStrip(Accumulate(documents.value[0]))
  }

  /** `retrieve_context(gene, drug, phenotype)`: query the store once, then
      accumulate the documents of the first (only) query in a loop. */
  method RetrieveContext(gene: string, drug: string, phenotype: string,
                         store: (string, nat) -> Option<seq<seq<string>>>)
    returns (context: string)
    ensures context == Context(store(QueryText(gene, drug, phenotype), NResults))
  {
    var queryText := QueryText(gene, drug, phenotype);
    var results := store(queryText, NResults);
    context := "";
    if results.Some? && results.value != [] {
      var docs := results.value[0];
      for i := 0 to |docs|
        invariant context == Accumulate(docs[..i])
      {
        AccumulateAppend(docs[..i], docs[i]);
        assert docs[..i + 1] == docs[..i] + [docs[i]];
        context := context + docs[i] + BlankLine;
      }
      assert docs[..|docs|] == docs;
    }
    context := PyStrip(context);
  }

  lemma {:induction false} AccumulateAppend(docs: seq<string>, doc: string)
    ensures Accumulate(docs + [doc]) == Accumulate(docs) + doc + BlankLine
  {
    if docs == [] {
      assert [] + [doc] == [doc];
      assert Accumulate([doc]) == doc + BlankLine + Accumulate([]);
    } else {
      assert (docs + [doc])[1..] == docs[1..] + [doc];
      AccumulateAppend(docs[1..], doc);
    }
  }

  /** The accumulated text is the documents, in the order returned, joined by
      blank lines and followed by one more. */
  lemma {:induction false} AccumulateJoin(docs: seq<string>)
    requires docs != []
    ensures Accumulate(docs) == Join(docs, BlankLine) + BlankLine
  {
    if |docs| > 1 {
      AccumulateJoin(docs[1..]);
    } else {
      assert Accumulate(docs[1..]) == "";
    }
  }

  /** A missing or empty answer gives the empty context rather than an error;
      so does an empty document list. */
  lemma NoDocumentsEmptyContext(documents: Option<seq<seq<string>>>)
    requires documents.None? || documents.value == [] || documents.value[0] == []
    ensures Context(documents) == ""
  {
    if documents.Some? && documents.value != [] {
      assert Accumulate([]) == "";
      StripNoop("", IsPySpace);
    }
  }

  /** Only the first query's document list is read. */
  lemma FirstListOnly(first: seq<string>, rest: seq<seq<string>>)
    ensures Context(Some([first] + rest)) == Context(Some([first]))
  {
  }

  /** When the first document does not start, and the last does not end, with
      white space, the context is exactly the documents joined by blank lines. */
  lemma ContextJoinsDocuments(docs: seq<string>)
    requires docs != [] && docs[0] != [] && docs[|docs| - 1] != []
    requires !IsPySpace(docs[0][0]) && !IsPySpace(docs[|docs| - 1][|docs[|docs| - 1]| - 1])
    ensures Context(Some([docs])) == Join(docs, BlankLine)
  {
    AccumulateJoin(docs);
    var j := Join(docs, BlankLine);
    JoinEdges(docs, BlankLine);
    StripTrailingAdded(j, BlankLine, IsPySpace);
  }
}
