# Cranfield search backend: the retrieval core in Dafny

This project models the retrieval core of a small Cranfield-collection search
backend and proves properties of it. The core has four parts.

- **Parsers** (`backend/parsers.py`). The corpus and query files are split on the
  record marker `.I `. Each record yields its id, title, author, bibliography
  and body through marker searches. Fields are stripped and their line breaks
  turned into spaces, and malformed records are skipped. The relevance
  judgments are grouped into a dictionary from query id to judged doc ids.
- **Text normaliser** (`backend/preprocessing.py`). It drops stopwords and
  punctuation, lower-cases and strips each lemma, drops empty results, and
  joins the survivors with single spaces.
- **Index build** (`backend/build_index.py`). One loop builds the corpus, whose
  order is the row order of the document-term matrix, and the insertion-ordered
  doc lookup dictionary.
- **Search API** (`backend/app.py`). Start-up derives the row-to-doc-id list
  from the dictionary's key order. `search` ranks rows with
  `argsort()[-k:][::-1]` and formats `{doc_id, title, snippet, score}` hits.
  `get_document` looks an id up exactly.

Modules:

- `Wrappers`: `Option` and `Result`.
- `Text`: the parts of Python's `str` the core uses. These are `isspace`,
  `strip`, ASCII `lower`, `replace('\n', ' ')`, `split(sep)`, `split()`, `join`
  and the lines of a text file. Text also has the three regular-expression
  searches of the parsers, each a function with a contract that characterises
  the match the regex engine finds.
- `Seqs`: an append-only filtering loop (`FilterMap`) with the positions it
  accepted, and first-occurrence deduplication.
- `OrderedMaps`: a Python dictionary as a map plus its key insertion order.
- `Parsers`, `Preprocessing`, `BuildIndex`, `Ranking`, `App`: the four parts
  above. Ranking is the top-k selection.

The loops of the source are methods with loop invariants: `ParseDocChunks`,
`ParseQueryChunks`, `ParseQrels`, `Preprocess`, `BuildCorpus` and `Search`. Each is
proved equal to a specification function. The properties are then proved
about those functions.

The parts that are not Python code become inputs:

- File contents are an `Option<string>`; `None` is a missing file.
- The spaCy tokens are a sequence of `Token(isStop, isPunct, baseForm)`.
- The cosine similarity of the query against every matrix row is a sequence
  of `real` scores.
- The `k` request parameter is an optional integer.

Some behaviours of the code are easy to misread. The model follows the code:

- **Title needs an author marker.** The title search needs a following
  `"\n.A"`, so a record without an author block is skipped rather than
  given an empty author (`Parsers.ParseDoc`).
- **`k` is not checked.** A `k` of zero or below is not rejected. `[-k:]`
  then follows Python slice rules: `k == 0` returns every row, and a negative
  `k` drops the `-k` lowest-ranked rows.
- **Ties and order.** Results are in non-increasing score order, not strictly
  descending. Equal scores come in whatever order the unstable `argsort`
  leaves them, not lower row first.
- **`/doc` returns the whole entry.** That is title, text and full_text, as
  stored by the index build.
- **Duplicate doc ids break the row mapping.** The row-to-doc-id
  correspondence holds only when doc ids are distinct. A repeated id shrinks
  the dictionary, and a search that reaches a row past its end fails with an
  `IndexError` (status 500).
- **Empty corpus.** The build loop accepts it without error.

## Model

| member | source | states |
|---|---|---|
| Text.Strip | backend/parsers.py:39 | `strip()` leaves a trimmed result that is `s[a..b]` with only whitespace removed on both sides |
| Text.ReplaceNewlines | backend/parsers.py:42-43 | `replace('\n', ' ')` keeps the length, turns every line break into a space and changes nothing else |
| Text.CleanField | backend/parsers.py:42-43 | strip then replace gives a field with no line break and no whitespace at either end |
| Text.Lower | backend/preprocessing.py:20 | `lower()` keeps the length, turns every upper-case letter into its lower-case letter, keeps every other character, and leaves no upper-case letter |
| Text.Split | backend/parsers.py:25 | `split(sep)` gives at least one piece, and exactly one when `sep` never occurs |
| Text.Join | backend/preprocessing.py:26 | `sep.join(xs)` starts with the first item and is as long as the items plus one `sep` between each two |
| Text.SplitJoin | backend/parsers.py:25 | joining the pieces of `split(sep)` with `sep` gives back the input |
| Text.SplitPiecesFree | backend/parsers.py:25 | no piece of `split(sep)` contains the separator |
| Text.Fields | backend/parsers.py:106 | every field of `split()` is a non-empty run of non-whitespace characters |
| Text.FieldsSplits | backend/parsers.py:106 | `split()` cuts any string into leading whitespace, its first word, whitespace or the end, and so on to trailing whitespace: the maximal non-whitespace runs in order |
| Text.FieldsUnique | backend/parsers.py:106 | any cut of a string into its maximal non-whitespace runs in order is `split()` |
| Text.FieldsOfJoin | backend/preprocessing.py:26 | words joined with single spaces split on whitespace back into the same words |
| Text.JoinEmpty | backend/preprocessing.py:26 | joining non-empty items is empty exactly when there are none |
| Text.Lines | backend/parsers.py:104 | `for line in f` yields no line for an empty file, at least one otherwise, and never more lines than characters |
| Text.LinesShape | backend/parsers.py:103-104 | the lines of a file are non-empty, and each has a line break only as its last character, which every line but the last has |
| Text.LinesConcat | backend/parsers.py:103-104 | the lines of a file concatenated are the file |
| Text.FirstNumber | backend/parsers.py:29 | `(\d+)` finds nothing exactly when there is no digit; otherwise its group is the leftmost maximal digit run |
| Text.EnclosedMatch | backend/parsers.py:30-32 | the lazy `open(.*?)close` search with DOTALL fails exactly when no `open` is followed by a `close`; otherwise it returns the leftmost start and, for it, the shortest group |
| Text.Enclosed | backend/parsers.py:30-32 | that search has a group exactly when some `open` is followed by a `close` |
| Text.TrailingMatch | backend/parsers.py:33 | the `open(.*?)$` search fails exactly when `open` does not occur; otherwise the group runs from the leftmost `open` to the first place `$` holds (the end, or before a final line break) |
| Text.Trailing | backend/parsers.py:33 | that search has a group exactly when `open` occurs |
| Seqs.FilterMapOrigins | backend/parsers.py:27-56 | every output of an append-if-accepted loop comes from one accepted item, in item order, and no accepted item is missed |
| Seqs.Dedup | backend/parsers.py:113-114 | the first-occurrence order of a sequence is repetition-free and has the same elements |
| OrderedMaps.OrderedMap.Put | backend/build_index.py:39-43 | `d[k] = v` sets the value, appends a new key to the key order, keeps an existing key's place and keeps the map well formed |
| OrderedMaps.KeyCount | backend/app.py:46 | a dictionary's key list is as long as the dictionary |
| Parsers.Chunks | backend/parsers.py:25 | `split('.I ')[1:]` has no chunk containing the marker and is empty exactly when the marker never occurs |
| Parsers.ChunksRejoin | backend/parsers.py:25 | the dropped prefix and the chunks, re-joined with the marker, are the content |
| Parsers.OptionalField | backend/parsers.py:47-48 | an author or bibliography search that fails gives `""`; one that matches gives its group stripped with line breaks turned into spaces |
| Parsers.ParseDoc | backend/parsers.py:29-56 | a chunk is skipped exactly when it has no digit, no `.T\n`…`\n.A` match or no `.W\n` match; a record has a numeric id from the first digit run, clean title, text, author and bib fields, and `full_text == title + " " + text`; author and bib are the cleaned groups of their searches, or `""` when a search fails |
| Parsers.ParseQuery | backend/parsers.py:77-89 | a chunk is skipped exactly when it has no digit or no `.W\n` match; a query has a numeric id and a clean text |
| Parsers.ParseDocChunks | backend/parsers.py:27-56 | the loop over the chunks collects exactly the documents of the chunks that parse, in chunk order |
| Parsers.ParseDocs | backend/parsers.py:9-59 | the records are those of the chunks that parse, in corpus order, all well formed; a missing file gives `[]` |
| Parsers.ParseQueryChunks | backend/parsers.py:76-89 | the loop over the chunks collects exactly the queries of the chunks that parse, in chunk order |
| Parsers.ParseQueries | backend/parsers.py:61-92 | the queries are those of the chunks that parse, in file order, each with a numeric id and a clean text; a missing file gives `[]` |
| Parsers.Judgment | backend/parsers.py:106-111 | a line is used exactly when it has at least two whitespace-separated fields, and then gives the first as the query id and the second as the doc id |
| Parsers.AddLine | backend/parsers.py:113-115 | a used line adds its query id (last in the key order when new), appends its doc id to that query's list and leaves every other list alone; an unused line changes nothing; the dictionary stays well formed |
| Parsers.QrelsOf | backend/parsers.py:104-115 | the dictionary after the lines is a well-formed ordered map |
| Parsers.AddLineInTwoSteps | backend/parsers.py:113-115 | creating an empty list for a new query id and then appending equals one append to the query's list |
| Parsers.QrelsOfKeys | backend/parsers.py:104-115 | the keys are the query ids of the used lines in order of first appearance |
| Parsers.QrelsOfEntries | backend/parsers.py:104-115 | each key's list has one doc id per used line with that key, in file order, and is non-empty; a query id with no used line has no key |
| Parsers.QrelsOfShape | backend/parsers.py:104-115 | the keys are the query ids of the used lines in order of first appearance; each key's list has one doc id per used line with that key, in file order, and is non-empty |
| Parsers.ParseQrels | backend/parsers.py:94-121 | the line loop builds exactly the judgments dictionary of the file's lines; a missing file gives `{}` |
| Preprocessing.NormalizeToken | backend/preprocessing.py:18-23 | a token is kept exactly when it is neither stopword nor punctuation and its lower-cased stripped lemma is not empty, and then as that non-empty, lower-case, trimmed string |
| Preprocessing.StripKeepsLower | backend/preprocessing.py:20 | stripping a string without upper-case letters leaves none |
| Preprocessing.Preprocess | backend/preprocessing.py:8-26 | the loop and join give the kept tokens joined with single spaces |
| Preprocessing.NormalizedShape | backend/preprocessing.py:15-26 | every emitted token is non-empty, lower case and trimmed; there are no more than the input tokens; the text is empty exactly when none survived |
| Preprocessing.NormalizedOrigins | backend/preprocessing.py:16-23 | the output is exactly the cleaned lemmas of the tokens that pass the filter, in input order |
| Preprocessing.OutputSplitsBack | backend/preprocessing.py:26 | when no kept lemma has inner whitespace, splitting the text on whitespace gives back the kept tokens |
| BuildIndex.Ids | backend/build_index.py:39 | one doc id per document, in document order |
| BuildIndex.CorpusOf | backend/build_index.py:35-36 | the corpus has one entry per document, entry `i` being document `i`'s processed text |
| BuildIndex.LookupOf | backend/build_index.py:33-43 | the dictionary filled by the documents stays a well-formed ordered map |
| BuildIndex.BuildCorpus | backend/build_index.py:32-43 | the loop builds exactly the corpus of the documents (one processed text per document, in order) and the lookup dictionary the documents fill |
| BuildIndex.LookupKeysInFirstOrder | backend/build_index.py:35-43 | the lookup's keys are the doc ids in order of first appearance |
| BuildIndex.LookupKeepsLastEntry | backend/build_index.py:39-43 | the entry of an id is the title, text and full text of the last document with that id, unchanged |
| BuildIndex.LookupKeysAreIds | backend/build_index.py:39 | an id has an entry exactly when some document has it |
| BuildIndex.DistinctIdsAlignRows | backend/build_index.py:35-43 | with distinct doc ids the key order equals the list of doc ids in corpus order and there are as many entries as rows |
| BuildIndex.RepeatedIdsLoseRows | backend/build_index.py:39 | a repeated doc id leaves fewer entries and keys than corpus rows |
| Ranking.Insert | backend/app.py:104 | inserting a row adds exactly that row and keeps every index a row of the scores |
| Ranking.InsertAscending | backend/app.py:104 | inserting a row keeps the order ascending by score |
| Ranking.InsertDistinct | backend/app.py:104 | inserting a row not yet present keeps the order repetition-free |
| Ranking.ArgSortPrefix | backend/app.py:104 | the first `n` rows, each once, in ascending score order |
| Ranking.ArgSort | backend/app.py:104 | `argsort()` lists every row exactly once in ascending score order |
| Ranking.SliceStart | backend/app.py:104 | `[-k:]` starts where it leaves `TopKCount(n, k)` elements: `min(k, n)` for `k >= 1`, all for `k == 0`, all but `-k` for `k < 0` |
| Ranking.Reverse | backend/app.py:104 | `[::-1]` puts element `a` at position `len - 1 - a` |
| Ranking.TopK | backend/app.py:104 | the selection has `TopKCount(n, k)` rows, all rows of the scores |
| Ranking.TopKPositions | backend/app.py:104 | rank `a` of the selection is position `n - 1 - a` of the ascending order |
| Ranking.TopKDescending | backend/app.py:104 | the selected rows are distinct and in non-increasing score order |
| Ranking.RowInSuffixIsReturned | backend/app.py:104 | every row in the kept tail of the ascending order is selected |
| Ranking.TopKDominates | backend/app.py:104 | no row left out scores higher than a selected row |
| Ranking.TopKSelects | backend/app.py:104 | the selection has `min(k, n)` rows for `k >= 1` (all for `k == 0`, all but `-k` for `k < 0`), distinct, best first, and dominating every row left out |
| Ranking.TopKKeepsAll | backend/app.py:104 | with `k == 0` or `k` at least the number of rows, every row is selected |
| App.IndexToDocId | backend/app.py:46 | `list(doc_lookup.keys())` is repetition-free, as long as the dictionary, and holds exactly its ids |
| App.Startup | backend/app.py:37-46 | the loaded state pairs the dictionary with its key list |
| App.Snippet | backend/app.py:114 | the first 150 characters of the text and `"..."`: the whole text when it is short, at most 153 characters, always ending in `"..."` |
| App.RequestedK | backend/app.py:82 | the `k` parameter when given, 10 when absent |
| App.HitAt | backend/app.py:109-120 | the hit for row `idx` carries `index_to_doc_id[idx]`, that entry's title, the snippet of its text and the score at `idx` |
| App.Search | backend/app.py:76-123 | an empty query is the 400 error; otherwise one hit per selected row, in rank order, with non-increasing scores, or the 500 error when a selected row has no doc id |
| App.GetDocument | backend/app.py:126-138 | a stored id gives its entry; any other id gives the 404 "Document not found" error |
| App.SearchShowsRankedDocs | backend/app.py:104-120 | with distinct doc ids and one score per document, every selected row resolves, and the hit for row `idx` shows document `idx`'s id, title and snippet |
| App.RepeatedIdsBreakSearch | backend/app.py:108-109 | with a repeated doc id, a search that selects every row reaches a row without a doc id |
| App.GetDocumentAfterBuild | backend/app.py:132-138 | after the build, a stored id returns the entry of the last document with that id and an unknown id returns the 404 error |

## Left out

- Reading files and the `FileNotFoundError` paths. Contents are inputs, and a missing file is `None`. Artifact loading at start-up (pickle, npz, JSON) and `exit()` are also out.
- The JSON dump and load of the lookup dictionary. It is taken to keep keys, values and key order, so the server's dictionary is the one the build made.
- Universal-newline translation when a file is read in text mode. Line breaks are `'\n'` characters as they appear in the content.
- spaCy tokenisation and lemmatisation and the NLTK stopword set. Their output is the `Token` sequence.
- That normalising an already normalised text changes nothing is not proved. It depends on the tokeniser.
- The TF-IDF vectoriser (fit, transform, `min_df`/`max_df`) and the cosine similarity. Scores are given as reals, so the similarity bounds and the exact-match-ranks-first property are not modelled.
- Floating-point scores and `float()` conversion: scores are real numbers.
- `Text.FirstNumber`: matches the ASCII digits `0`-`9` only. Python's `\d` in a str pattern also matches every other Unicode decimal digit (Arabic-Indic, fullwidth and so on).
- The diagnostic `print` calls of the parsers, the index build and the server (progress, skipped records, missing files) are left out. They do not change any result.
- `Text.Lower`: lower-cases ASCII letters only. Python's `lower()` also maps non-ASCII upper-case letters.
- `Ranking.ArgSort`: fixes one order for equal scores (by row number). numpy's default `argsort` is not stable and leaves that order open. The contract of `Ranking.TopKSelects` holds for any tie order.
- `App.Search`: its hits follow the model's tie order. When scores are equal at the cut (for example the zero scores of a query that matches fewer than `k` documents), numpy may keep other rows or list them in another order. With a repeated doc id, whether the 500 error happens can then differ too.
- `App.Search`: `k` arrives as an integer. Parsing the request parameter with `int()` can raise on text that is not a number, and that error (a 500 response) is not modelled.
- Saving the vectoriser, matrix and lookup files. Flask routing, CORS, JSON responses and `app.run`.
- `backend/parse_and_preprocess.py` (orchestration), `backend/config.py` (paths and model loading) and the frontend.
