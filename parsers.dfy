/**
 * The Cranfield-format parsers (backend/parsers.py): the document corpus, the
 * query file and the relevance judgments. The file contents are inputs; an
 * absent file (`None`) gives the empty result the parsers return when the
 * file is not found.
 */
module Parsers {
  import opened Wrappers
  import opened Text
  import opened Seqs
  import opened OrderedMaps

  /** The marker every record starts with; the corpus is split on it. */
  const RecordMarker: string := ".I "

  /** The field markers, with the line breaks the searches require around them. */
  const TitleOpen: string := ".T\n"
  const TitleClose: string := "\n.A"
  const AuthorOpen: string := ".A\n"
  const AuthorClose: string := "\n.B"
  const BibOpen: string := ".B\n"
  const BibClose: string := "\n.W"
  const TextOpen: string := ".W\n"

  datatype Metadata = Metadata(author: string, bib: string)

  /** A parsed document: its id, title, body text, title and body together, and metadata. */
  datatype Doc = Doc(docId: string, title: string, text: string, fullText: string, metadata: Metadata)

  /** A parsed query. */
  datatype Query = Query(queryId: string, text: string)

  /** The relevance judgments: query id to the judged doc ids, in file order. */
  type Qrels = OrderedMap<string, seq<string>>

  // ---------------------------------------------------------------------------
  // Records
  // ---------------------------------------------------------------------------

  /**
   * `content.split('.I ')[1:]`: the text after each record marker, up to the
   * next one; what precedes the first marker is dropped.
   */
  function Chunks(content: string): (r: seq<string>)
    ensures forall k, j :: 0 <= k < |r| ==> !OccursAt(r[k], RecordMarker, j)
    ensures r == [] <==> forall j :: !OccursAt(content, RecordMarker, j)
  {
    SplitPiecesFree(content, RecordMarker);
    Split(content, RecordMarker)[1..]
  }

  /** The dropped prefix, the markers and the chunks, put back together, are the corpus. */
  lemma ChunksRejoin(content: string)
    ensures Join([Split(content, RecordMarker)[0]] + Chunks(content), RecordMarker) == content
  {
    SplitJoin(content, RecordMarker);
    var pieces := Split(content, RecordMarker);
    assert pieces == [pieces[0]] + pieces[1..];
  }

  /** What a stored document satisfies, whatever chunk it came from. */
  predicate WellFormedDoc(d: Doc) {
    && IsNumeral(d.docId)
    && IsCleanField(d.title)
    && IsCleanField(d.text)
    && d.fullText == d.title + " " + d.text
    && IsCleanField(d.metadata.author)
    && IsCleanField(d.metadata.bib)
  }

  /** An optional field: its cleaned text when its search matched, else "". */
  function OptionalField(group: Option<string>): (r: string)
    ensures IsCleanField(r)
    ensures group.None? ==> r == ""
    ensures group.Some? ==> r == CleanField(group.value)
  {
    match group
    case None => ""
    case Some(g) => CleanField(g)
  }

  lemma NumeralTrimmed(s: string)
    requires IsNumeral(s)
    ensures Strip(s) == s
  {
    assert !IsSpace(s[0]) && !IsSpace(s[|s| - 1]);
    StripTrimmed(s);
  }

  /**
   * One chunk of the corpus: None (the chunk is skipped) when it has no digit,
   * no title between ".T\n" and "\n.A", or no ".W\n" body; a missing author
   * or bibliography only leaves that field empty.
   */
  function ParseDoc(chunk: string): (r: Option<Doc>)
    ensures r.None? <==> || (forall i :: 0 <= i < |chunk| ==> !IsDigit(chunk[i]))
                         || (forall p, q :: !EnclosedAt(chunk, TitleOpen, TitleClose, p, q))
                         || (forall p :: !OccursAt(chunk, TextOpen, p))
    ensures r.Some? ==> WellFormedDoc(r.value)
    ensures r.Some? ==> r.value.docId == FirstNumber(chunk).value
    ensures r.Some? ==> r.value.title == CleanField(Enclosed(chunk, TitleOpen, TitleClose).value)
    ensures r.Some? ==> r.value.text == CleanField(Trailing(chunk, TextOpen).value)
    ensures r.Some? ==> r.value.metadata == Metadata(OptionalField(Enclosed(chunk, AuthorOpen, AuthorClose)),
                                                     OptionalField(Enclosed(chunk, BibOpen, BibClose)))
    ensures r.Some? && (forall p, q :: !EnclosedAt(chunk, AuthorOpen, AuthorClose, p, q)) ==>
              r.value.metadata.author == ""
    ensures r.Some? && (forall p, q :: !EnclosedAt(chunk, BibOpen, BibClose, p, q)) ==>
              r.value.metadata.bib == ""
  {
    var number := FirstNumber(chunk);
    var title := Enclosed(chunk, TitleOpen, TitleClose);
    var author := Enclosed(chunk, AuthorOpen, AuthorClose);
    var bib := Enclosed(chunk, BibOpen, BibClose);
    var body := Trailing(chunk, TextOpen);
    if number.None? || title.None? || body.None? then None
    else
      NumeralTrimmed(number.value);
      var t := CleanField(title.value);
      var w := CleanField(body.value);
      Some(Doc(Strip(number.value), t, w, t + " " + w, Metadata(OptionalField(author), OptionalField(bib))))
  }

  /** What a stored query satisfies, whatever chunk it came from. */
  predicate WellFormedQuery(q: Query) {
    IsNumeral(q.queryId) && IsCleanField(q.text)
  }

  /** One chunk of the query file: skipped without a digit or a ".W\n" body. */
  function ParseQuery(chunk: string): (r: Option<Query>)
    ensures r.None? <==> || (forall i :: 0 <= i < |chunk| ==> !IsDigit(chunk[i]))
                         || (forall p :: !OccursAt(chunk, TextOpen, p))
    ensures r.Some? ==> WellFormedQuery(r.value)
    ensures r.Some? ==> r.value.queryId == FirstNumber(chunk).value
    ensures r.Some? ==> r.value.text == CleanField(Trailing(chunk, TextOpen).value)
  {
    var number := FirstNumber(chunk);
    var body := Trailing(chunk, TextOpen);
    if number.None? || body.None? then None
    else
      NumeralTrimmed(number.value);
      Some(Query(Strip(number.value), CleanField(body.value)))
  }

  /** The loop of `parse_docs`: parse each chunk in turn, keeping the documents that parse. */
  method ParseDocChunks(chunks: seq<string>) returns (docs: seq<Doc>)
    ensures docs == FilterMap(chunks, ParseDoc)
  {
    docs := [];
    for i := 0 to |chunks|
      invariant docs == FilterMap(chunks[..i], ParseDoc)
    {
      FilterMapStep(chunks, i, ParseDoc);
      var parsed := ParseDoc(chunks[i]);
      if parsed.None? {
        continue;
      }
      docs := docs + [parsed.value];
    }
    assert chunks[..|chunks|] == chunks;
  }

  /** `parse_docs`: the documents of the chunks that parse, in corpus order. */
  method ParseDocs(content: Option<string>) returns (docs: seq<Doc>)
    ensures content.None? ==> docs == []
    ensures content.Some? ==> docs == FilterMap(Chunks(content.value), ParseDoc)
    ensures forall k :: 0 <= k < |docs| ==> WellFormedDoc(docs[k])
  {
    if content.None? {
      return [];
    }
    var chunks := Chunks(content.value);
    docs := ParseDocChunks(chunks);
    FilterMapAll(chunks, ParseDoc, WellFormedDoc);
  }

  /** The loop of `parse_queries`: parse each chunk in turn, keeping the queries that parse. */
  method ParseQueryChunks(chunks: seq<string>) returns (queries: seq<Query>)
    ensures queries == FilterMap(chunks, ParseQuery)
  {
    queries := [];
    for i := 0 to |chunks|
      invariant queries == FilterMap(chunks[..i], ParseQuery)
    {
      FilterMapStep(chunks, i, ParseQuery);
      var parsed := ParseQuery(chunks[i]);
      if parsed.None? {
        continue;
      }
      queries := queries + [parsed.value];
    }
    assert chunks[..|chunks|] == chunks;
  }

  /** `parse_queries`: the queries of the chunks that parse, in file order. */
  method ParseQueries(content: Option<string>) returns (queries: seq<Query>)
    ensures content.None? ==> queries == []
    ensures content.Some? ==> queries == FilterMap(Chunks(content.value), ParseQuery)
    ensures forall k :: 0 <= k < |queries| ==> WellFormedQuery(queries[k])
  {
    if content.None? {
      return [];
    }
    var chunks := Chunks(content.value);
    queries := ParseQueryChunks(chunks);
    FilterMapAll(chunks, ParseQuery, WellFormedQuery);
  }

  // ---------------------------------------------------------------------------
  // Relevance judgments
  // ---------------------------------------------------------------------------

  /** A qrels line with at least two fields, as (query id, doc id); other lines are ignored. */
  function Judgment(line: string): (r: Option<(string, string)>)
    ensures r.Some? <==> |Fields(line)| >= 2
    ensures r.Some? ==> r.value == (Fields(line)[0], Fields(line)[1])
    ensures r.Some? ==> IsWord(r.value.0) && IsWord(r.value.1)
  {
    var parts := Fields(line);
    if |parts| < 2 then None else Some((parts[0], parts[1]))
  }

  /** The query id of an accepted line. */
  function JudgedQuery(line: string): Option<string> {
    match Judgment(line)
    case None => None
    case Some((q, _)) => Some(q)
  }

  /** The dictionary after one more line: an accepted line appends its doc id to its query's list. */
  function AddLine(m: Qrels, line: string): (r: Qrels)
    ensures m.Valid() ==> r.Valid()
    ensures Judgment(line).None? ==> r == m
    ensures Judgment(line).Some? ==>
              var q, d := Judgment(line).value.0, Judgment(line).value.1;
              && r.entries.Keys == m.entries.Keys + {q}
              && r.entries[q] == (if q in m.entries then m.entries[q] else []) + [d]
              && (forall q' :: q' in m.entries && q' != q ==> r.entries[q'] == m.entries[q'])
              && r.keys == (if q in m.entries then m.keys else m.keys + [q])
  {
    match Judgment(line)
    case None => m
    case Some((q, d)) => m.Put(q, (if q in m.entries then m.entries[q] else []) + [d])
  }

  /**
   * `AddLine` in the two steps the parser takes: a new query id first gets an
   * empty list, then the doc id is appended to the query's list.
   */
  lemma AddLineInTwoSteps(m: Qrels, line: string)
    requires |Fields(line)| >= 2
    ensures var q, d := Fields(line)[0], Fields(line)[1];
            var m1 := if q !in m.entries then m.Put(q, []) else m;
            AddLine(m, line) == m1.Put(q, m1.entries[q] + [d])
  {
    var q, d := Fields(line)[0], Fields(line)[1];
    assert Judgment(line) == Some((q, d));
    if q !in m.entries {
      PutOverwrite(m, q, [], [d]);
    }
  }

  /** The dictionary after the lines have been read one by one. */
  function QrelsOf(lines: seq<string>): (r: Qrels)
    ensures r.Valid()
  {
    if lines == [] then Empty()
    else AddLine(QrelsOf(lines[..|lines| - 1]), lines[|lines| - 1])
  }

  /** The doc ids of the accepted lines about query `q`, one per line, in file order. */
  function JudgedDocs(lines: seq<string>, q: string): seq<string> {
    if lines == [] then []
    else
      var init := JudgedDocs(lines[..|lines| - 1], q);
      match Judgment(lines[|lines| - 1])
      case Some((q', d)) => if q' == q then init + [d] else init
      case None => init
  }

  /** The keys of the judgments dictionary are the accepted query ids in order of first appearance. */
  lemma {:induction false} QrelsOfKeys(lines: seq<string>)
    ensures QrelsOf(lines).keys == Dedup(FilterMap(lines, JudgedQuery))
  {
    if lines != [] {
      var init, last := lines[..|lines| - 1], lines[|lines| - 1];
      QrelsOfKeys(init);
      var fm := FilterMap(init, JudgedQuery);
      match Judgment(last)
      case None =>
        assert FilterMap(lines, JudgedQuery) == fm;
      case Some((q, d)) =>
        var xs := FilterMap(lines, JudgedQuery);
        assert xs == fm + [q];
        assert xs[..|xs| - 1] == fm;
    }
  }

  /** Each key's list holds one doc id per accepted line with that key, in file order. */
  lemma {:induction false} QrelsOfEntries(lines: seq<string>)
    ensures forall q :: q in QrelsOf(lines).entries ==>
              QrelsOf(lines).entries[q] == JudgedDocs(lines, q) && JudgedDocs(lines, q) != []
    ensures forall q :: q !in QrelsOf(lines).entries ==> JudgedDocs(lines, q) == []
  {
    if lines != [] {
      QrelsOfEntries(lines[..|lines| - 1]);
    }
  }

  /**
   * The judgments dictionary: its keys are the accepted query ids in order of
   * first appearance, and each key's list holds one doc id per accepted line
   * with that key, in file order.
   */
  lemma QrelsOfShape(lines: seq<string>)
    ensures QrelsOf(lines).Valid()
    ensures QrelsOf(lines).keys == Dedup(FilterMap(lines, JudgedQuery))
    ensures forall q :: q in QrelsOf(lines).entries ==>
              QrelsOf(lines).entries[q] == JudgedDocs(lines, q) && JudgedDocs(lines, q) != []
    ensures forall q :: q !in QrelsOf(lines).entries ==> JudgedDocs(lines, q) == []
  {
    QrelsOfKeys(lines);
    QrelsOfEntries(lines);
  }

  /** `parse_qrels`: read the judgments line by line into the dictionary. */
  method ParseQrels(content: Option<string>) returns (qrels: Qrels)
    ensures content.None? ==> qrels == Empty()
    ensures content.Some? ==> qrels == QrelsOf(Lines(content.value))
  {
    qrels := Empty();
    if content.None? {
      return;
    }
    var lines := Lines(content.value);
    for i := 0 to |lines|
      invariant qrels == QrelsOf(lines[..i])
    {
      assert lines[..i + 1][..i] == lines[..i];
      assert QrelsOf(lines[..i + 1]) == AddLine(qrels, lines[i]);
      var parts := Fields(lines[i]);
      if |parts| < 2 {
        continue;
      }
      AddLineInTwoSteps(qrels, lines[i]);
      var queryId, docId := parts[0], parts[1];
      if queryId !in qrels.entries {
        qrels := qrels.Put(queryId, []);
      }
      qrels := qrels.Put(queryId, qrels.entries[queryId] + [docId]);
    }
    assert lines[..|lines|] == lines;
  }
}
