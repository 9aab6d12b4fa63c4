/**
 * The corpus and lookup construction of the index builder
 * (backend/build_index.py): one loop that appends each document's normalised
 * text to the corpus, whose order is the row order of the document-term
 * matrix, and stores the document under its id in the lookup dictionary.
 * The TF-IDF fit and the saving of the artifacts are outside the model.
 */
module BuildIndex {
  import opened Seqs
  import opened OrderedMaps
  import opened Parsers

  /** A record of the processed-documents file: a parsed document and its normalised text. */
  datatype ProcessedDoc = ProcessedDoc(doc: Doc, processedText: string)

  /** What the lookup dictionary keeps of a document. */
  datatype Entry = Entry(title: string, text: string, fullText: string)

  /** The lookup dictionary: doc id to entry, in insertion order. */
  type Lookup = OrderedMap<string, Entry>

  function EntryOf(p: ProcessedDoc): Entry {
    Entry(p.doc.title, p.doc.text, p.doc.fullText)
  }

  /** The doc ids of the documents, one per document, in order. */
  function Ids(docs: seq<ProcessedDoc>): (ids: seq<string>)
    ensures |ids| == |docs|
    ensures forall i :: 0 <= i < |docs| ==> ids[i] == docs[i].doc.docId
  {
    if docs == [] then [] else Ids(docs[..|docs| - 1]) + [docs[|docs| - 1].doc.docId]
  }

  /** The corpus: the normalised texts of the documents, one per document, in order. */
  function CorpusOf(docs: seq<ProcessedDoc>): (corpus: seq<string>)
    ensures |corpus| == |docs|
    ensures forall i :: 0 <= i < |docs| ==> corpus[i] == docs[i].processedText
  {
    if docs == [] then [] else CorpusOf(docs[..|docs| - 1]) + [docs[|docs| - 1].processedText]
  }

  /** The lookup dictionary after the documents have been stored one by one. */
  function LookupOf(docs: seq<ProcessedDoc>): (lookup: Lookup)
    ensures lookup.Valid()
  {
    if docs == [] then Empty()
    else
      var last := docs[|docs| - 1];
      LookupOf(docs[..|docs| - 1]).Put(last.doc.docId, EntryOf(last))
  }

  /** One more document: its text is appended to the corpus and its entry stored under its id. */
  lemma BuildStep(docs: seq<ProcessedDoc>, i: nat)
    requires i < |docs|
    ensures CorpusOf(docs[..i + 1]) == CorpusOf(docs[..i]) + [docs[i].processedText]
    ensures LookupOf(docs[..i + 1]) == LookupOf(docs[..i]).Put(docs[i].doc.docId, EntryOf(docs[i]))
  {
    assert docs[..i + 1][..i] == docs[..i];
  }

  /** No later document has the id of document `i`. */
  ghost predicate LastWithId(docs: seq<ProcessedDoc>, i: int)
    requires 0 <= i < |docs|
  {
    forall j :: i < j < |docs| ==> docs[j].doc.docId != docs[i].doc.docId
  }

  /**
   * The corpus has one entry per document, the document's normalised text,
   * in document order; the lookup is the dictionary the documents fill.
   */
  method BuildCorpus(docs: seq<ProcessedDoc>) returns (corpus: seq<string>, lookup: Lookup)
    ensures corpus == CorpusOf(docs)
    ensures lookup == LookupOf(docs)
  {
    corpus := [];
    lookup := Empty();
    for i := 0 to |docs|
      invariant corpus == CorpusOf(docs[..i])
      invariant lookup == LookupOf(docs[..i])
    {
      BuildStep(docs, i);
      corpus := corpus + [docs[i].processedText];
      lookup := lookup.Put(docs[i].doc.docId, Entry(docs[i].doc.title, docs[i].doc.text, docs[i].doc.fullText));
    }
    assert docs[..|docs|] == docs;
  }

  /** The lookup's keys are the doc ids in order of first appearance. */
  lemma {:induction false} LookupKeysInFirstOrder(docs: seq<ProcessedDoc>)
    ensures LookupOf(docs).keys == Dedup(Ids(docs))
  {
    if docs != [] {
      var init := docs[..|docs| - 1];
      LookupKeysInFirstOrder(init);
      assert Ids(docs)[..|docs| - 1] == Ids(init);
    }
  }

  /** The entry of an id is copied unchanged from the last document with that id. */
  lemma {:induction false} LookupKeepsLastEntry(docs: seq<ProcessedDoc>)
    ensures forall i :: 0 <= i < |docs| && LastWithId(docs, i) ==>
              docs[i].doc.docId in LookupOf(docs).entries
              && LookupOf(docs).entries[docs[i].doc.docId] == EntryOf(docs[i])
  {
    if docs != [] {
      var init := docs[..|docs| - 1];
      LookupKeepsLastEntry(init);
      forall i | 0 <= i < |docs| - 1 && LastWithId(docs, i)
        ensures LastWithId(init, i)
      {
      }
    }
  }

  /** Every doc id has an entry, and only doc ids have one. */
  lemma LookupKeysAreIds(docs: seq<ProcessedDoc>)
    ensures forall id :: id in LookupOf(docs).entries <==> id in Ids(docs)
  {
    LookupKeysInFirstOrder(docs);
  }

  /**
   * With distinct doc ids the lookup's key order is the corpus order: key i
   * is the id of the document at corpus row i, and there are as many entries
   * as rows.
   */
  lemma DistinctIdsAlignRows(docs: seq<ProcessedDoc>)
    requires Distinct(Ids(docs))
    ensures LookupOf(docs).keys == Ids(docs)
    ensures LookupOf(docs).Size() == |docs|
  {
    LookupKeysInFirstOrder(docs);
    DedupOfDistinct(Ids(docs));
    KeyCount(LookupOf(docs));
  }

  /**
   * A repeated doc id overwrites the earlier entry: the lookup then has fewer
   * entries than the corpus has rows, so its key order cannot line up with
   * the rows.
   */
  lemma RepeatedIdsLoseRows(docs: seq<ProcessedDoc>)
    requires !Distinct(Ids(docs))
    ensures LookupOf(docs).Size() < |docs|
    ensures |LookupOf(docs).keys| < |docs|
  {
    LookupKeysInFirstOrder(docs);
    DedupOfRepeated(Ids(docs));
    KeyCount(LookupOf(docs));
  }
}
