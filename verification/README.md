# Multimodal RAG core, modelled in Dafny

This project models the core of a small multimodal retrieval-augmented
question-answering system. It covers four stages.

- **Chunker.** Every text unit of a parsed PDF corpus is split into windows
  of at most 500 whitespace-separated words, and each window gets the id
  `doc-page-txt-i`. Every other unit (images, tables) is passed through with
  the id `doc-page-img`. The script stops at the first unit that raises.
- **Index build.** Each chunk is embedded: text by the sentence model, images
  by CLIP when CLIP loaded. The build members (`Embed`, `Entries`,
  `IndexBuild.IndexChunk`, `IndexBuild.Build`, `BuildFromScratch`) model the
  image step as intended. The script as written never indexes an image (see
  Findings). It is the same members run with `AsWritten(m)`, a CLIP whose
  feature extraction always fails. The vector is zero-padded to
  `DIM = max(dim_txt, dim_img)` and appended to a flat inner-product index.
  A metadata record is appended beside it, holding the id, the type, the
  document, the page and the first 200 characters of the content. Chunks of
  other types are skipped. A chunk whose embedding raises is dropped, and the
  build carries on.
- **Search.** A text query, or a base64 image when CLIP is loaded, is
  embedded and padded to the index dimension `d`. The index then searches
  for it, and the returned positions are joined, rank by rank, with the
  metadata list to form the hits.
- **Question answering and the query endpoint.**
  - The hits become a bullet list of facts.
  - The facts go into a fixed prompt.
  - The generator continues the prompt, and the answer is the text after the
    prompt, stripped of surrounding whitespace.
  - The endpoint answers non-blank text as a question. Otherwise it describes
    an image. With neither it replies 400.

Outside collaborators become function-typed parameters:
- the text model and CLIP (`Embedding.TextModel`, `Embedding.ImageModel`, each with a fixed output dimension);
- the `is_base64` test;
- the index's nearest-neighbour search (`SearchFaiss.LoadedIndex.search`);
- the generator;
- the `:.3f` score rendering.

The models, the base64 test and the generator return `None` where the Python
code would raise. The search is total on queries exactly `d` wide. The one
way `index.search` itself raises in this code is a query of another width.
That case is checked before searching and reported as `DimensionMismatch`.
The project proves what the code does around these collaborators:
- the chunking round trip and the window bounds;
- the padding;
- the lock-step of vectors and metadata;
- the rank-preserving hit join;
- answer extraction;
- the endpoint's dispatch.

Files:
- `wrappers.dfy`: Option and Result.
- `pytext.dfy`: Python's `str.split()`, `strip()`, `" ".join`, `split(sep)` and integer rendering.
- `json.dfy`: JSON values, `dict.get`, truthiness and `str()`.
- `chunker.dfy`, `embedding.dfy`, `build_index.dfy`, `search.dfy`, `qa.dfy`, `app.dfy`: one module per source file or concern.

Where the code behaves other than one might expect, the model follows the code:
- Chunk ids are not unique. Two non-text units of the same page both get `doc-page-img`.
- Loading an index does not check its dimension against the current models. A mismatch surfaces only at query time. A query that padding leaves wider than `d` is rejected by `index.search`; an example is an index built without CLIP, queried once CLIP loads. That request then fails with a server error.
- An image query without CLIP is not a client-facing error. `search_image_b64` raises `RuntimeError`, which Flask turns into a server error.
- Text content that is not a string is not skipped by the chunker. It stops the script with `AttributeError`.

## Model

A function that only computes has no row of its own. The row of the lemma or method that specifies it stands for it:
- `Chunker.ChunkText` by `ChunkTextSpec`.
- `Chunker.Expand` by `ExpandText`, `ExpandTextWords`, `ExpandBlankText`, `ExpandOther` and `WriteUnit`.
- `Chunker.RunChunker` by `RunChunkerStopped`, `RunChunkerAllOk` and `ChunkFile`.
- `BuildIndex.Entries` by `EntriesAppend`, `EntriesInInputOrder`, `EntriesPreviews` and `IndexBuild.Build`.
- `BuildIndex.EmbedAsWritten` by `TorchNameErrorDropsImages` and `EmbedAsWrittenIsFailingClip`.
- `Embedding.PadTo` by `PadToSpec` and `PadKeepsNorm`.
- `SearchFaiss.JoinHits` by `JoinHitsSpec`.
- `SearchFaiss.SearchText` and `SearchFaiss.SearchImage` by `SearchTextSpec`, `SearchImageSpec`, `WideQueryFails` and `SearchImageWithoutClip`.
- `Qa.Facts` by `FormatHits` and `FactsAreLines`.
- `Qa.TextPrompt` by `TextPromptLayout`.
- `Qa.ImagePrompt` by `ImageAnswer`.

| member | source | states |
|---|---|---|
| Chunker.Windows | src/chunker.py:10-13 | The windows of a word list: ceil(n/500) of them; concatenated in order they give back the word list; each holds 1 to 500 words, and all but the last hold exactly 500 |
| Chunker.ChunkTextSpec | src/chunker.py:10-13 | `chunk_text` yields ceil(n/500) chunks for n words; each chunk splits back into its window, so the chunks' words concatenated are exactly `text.split()`; 1 to 500 words per chunk, exactly 500 in all but the last |
| Chunker.ChunkTextEmptyIff | src/chunker.py:10-13 | `chunk_text` yields nothing exactly when the text is empty or whitespace only |
| Chunker.TextChunkIdsDistinct | src/chunker.py:19-21 | The pieces of one text unit get pairwise different ids `doc-page-txt-i` |
| Chunker.ExpandText | src/chunker.py:18-23 | A text unit with doc and page writes one record per chunk, in order: record i is a copy of the unit with id `doc-page-txt-i` and the i-th chunk as content, every other field unchanged |
| Chunker.ExpandTextWords | src/chunker.py:18-23 | The records of a text unit each hold 1 to 500 words, and their words, concatenated in record order, are exactly the unit's `content.split()` |
| Chunker.ExpandBlankText | src/chunker.py:18-19 | A text unit whose content is blank writes no record, even without doc or page |
| Chunker.ExpandOther | src/chunker.py:24-27 | A non-text unit writes exactly one record: itself with id `doc-page-img`, all other fields unchanged |
| Chunker.RunChunkerStopped | src/chunker.py:15-27 | Once a unit raises, the script writes nothing more, whatever lines follow |
| Chunker.RunChunkerAllOk | src/chunker.py:15-27 | When no unit raises, the output file is every unit's records, unit after unit, in input order |
| Chunker.WriteUnit | src/chunker.py:17-27 | Handling one line appends exactly that unit's records; or it raises the unit's error (missing key, or non-string text content) having written nothing for it |
| Chunker.WriteChunks | src/chunker.py:19-23 | The inner loop appends, after what was written, exactly one record per chunk, in chunk order, record j being the unit with id `doc-page-txt-j` and chunk j as content |
| Chunker.ChunkFile | src/chunker.py:15-27 | The script's loop writes exactly `RunChunker` of its input and stops at the first unit that raises |
| PyText.SplitJoinRoundTrip | src/chunker.py:11-13 | `" ".join(words).split()` gives back `words` for words free of whitespace |
| PyText.WordsAreWords | src/chunker.py:11 | Every piece `str.split()` returns is non-empty and free of whitespace |
| PyText.WordsEmptyIff | src/chunker.py:11 | `str.split()` returns `[]` exactly when the string is empty or whitespace only |
| PyText.NatToStringInjective | src/chunker.py:21 | Distinct numbers render as distinct decimal strings |
| PyText.Strip | src/qa.py:69 | `strip()` returns a string no longer than its input that is empty or starts and ends with non-whitespace |
| PyText.StripExact | src/qa.py:69 | `strip()` of whitespace + core + whitespace is the core, when the core has non-whitespace ends |
| PyText.SplitOnJoinRoundTrip | src/qa.py:29 | `"\n".join(lines).split("\n")` gives back `lines` when no line holds a newline |
| Embedding.Dim | src/build_index.py:26-35 | `DIM` is the larger of the text and image dimensions, and is the text dimension when CLIP did not load |
| Embedding.PadToSpec | src/search_faiss.py:29-30 | Padding gives length `d` (or leaves a longer vector alone), keeps the vector as its prefix and fills with zeros |
| Embedding.PadKeepsNorm | src/search_faiss.py:53-56 | Zero-padding keeps the squared norm, so a normalised vector stays normalised |
| BuildIndex.Preview | src/build_index.py:83 | `cont[:200]` is a prefix of at most 200 characters: the whole string when it is that short, exactly 200 characters otherwise |
| BuildIndex.Embed | src/build_index.py:51-75 | A chunk is skipped exactly when its type is neither text nor image-with-CLIP; it is embedded only with string content, and an image only when the base64 check passes |
| BuildIndex.EmbedSpec | src/build_index.py:56-71 | An embedded chunk's vector has length DIM and is the text embedding, or the CLIP features, zero-padded to DIM |
| BuildIndex.EntryOf | src/build_index.py:77-84 | A chunk adds an entry exactly when it is embedded; the entry's record holds its id (`chunk_id` or else `id`), its type (default text), doc, page and the 200-character preview |
| BuildIndex.EntriesAppend | src/build_index.py:48-88 | Building from two batches in turn gives the first batch's entries followed by the second's |
| BuildIndex.EntriesInInputOrder | src/build_index.py:48-88 | The entries are those of exactly the chunks that succeed, in increasing input position |
| BuildIndex.EntriesPreviews | src/build_index.py:83 | Every stored content is a prefix, of at most 200 characters, of the content of some input chunk |
| BuildIndex.IndexBuild.constructor | src/build_index.py:35-38 | A build starts with an empty index of dimension DIM and an empty metadata list |
| BuildIndex.IndexBuild.Add | src/build_index.py:77 | `index.add` takes a DIM-long vector and appends it, leaving the metadata alone |
| BuildIndex.EntriesStep | src/build_index.py:49-88 | Reading one more chunk appends its vector and record when it is embedded, and changes nothing otherwise |
| BuildIndex.IndexBuild.IndexChunk | src/build_index.py:50-88 | One pass of the loop body keeps vectors and metadata in lock-step and appends the chunk's vector and record exactly when the chunk is embedded, leaving both untouched otherwise |
| BuildIndex.IndexBuild.Build | src/build_index.py:48-88 | The build loop keeps vectors and metadata in lock-step, with every vector of length DIM; it appends exactly the entries' vectors and records, and `ntotal` grows by their number |
| BuildIndex.BuildFromScratch | src/build_index.py:16-88 | A whole build yields a fresh index of dimension DIM holding exactly the entries of the input, in order |
| BuildIndex.TorchNameErrorDropsImages | src/build_index.py:61-71 | As written, no image chunk is ever indexed; a concrete chunk that the intended step indexes is dropped |
| BuildIndex.EmbedAsWrittenIsFailingClip | src/build_index.py:61-71 | The as-written step is exactly the intended step run with a CLIP of the same dimension whose feature extraction always fails, so DIM and validity are unchanged |
| BuildIndex.BuildAsWrittenHasNoImages | src/build_index.py:48-88 | A build of the script as written stores no record of type image |
| BuildIndex.ImageChunkIndexed | src/build_index.py:61-71 | With the image step as intended, an image chunk with valid base64 on which CLIP succeeds is indexed with its features padded to DIM |
| BuildIndex.TextChunkIndexed | src/build_index.py:56-60 | A text chunk on which the text model succeeds is indexed with its embedding padded to DIM |
| SearchFaiss.JoinHitsSpec | src/search_faiss.py:35-43 | One hit per returned position; hit r carries the id, type and stored content of the record at position r, with the r-th score, so score order is kept |
| SearchFaiss.HitsFromBuiltIndex | src/search_faiss.py:59-67 | Over an index this build produced, every hit shows an input chunk that was indexed, with a caption that is a prefix of at most 200 characters of its content |
| SearchFaiss.SearchTextSpec | src/search_faiss.py:25-43 | A text query is searched with its embedding padded to exactly `d`, norm kept, and the result is the join of the returned positions |
| SearchFaiss.SearchImageSpec | src/search_faiss.py:45-67 | An image query with CLIP is searched with its normalised features padded to `d`, still of unit norm, and the result is the join |
| SearchFaiss.WideQueryFails | src/search_faiss.py:29-58 | A text or image query whose embedding is wider than `d` fails with `DimensionMismatch`, because padding never shortens and the search takes only `d`-wide queries; a text embedding no wider than `d` is searched |
| SearchFaiss.SearchImageWithoutClip | src/search_faiss.py:46-47 | Without CLIP an image query fails with the same error whatever the payload or the index |
| Qa.FormatHits | src/qa.py:19-29 | `format_hits` returns exactly the hits' bullet lines joined with newlines, in hit order |
| Qa.FactsAreLines | src/qa.py:19-29 | No hits give the empty string; otherwise the fact list splits back into one bullet line per hit, and every line starts with the bullet |
| Qa.FactLineDefaults | src/qa.py:26-27 | A missing caption reads as `<no caption>` and a missing score as 0.0 |
| Qa.TextPromptLayout | src/qa.py:45-58 | The text prompt holds the worked example, then the facts, then the question, each at a fixed place |
| Qa.ExtractAnswer | src/qa.py:69 | The answer never starts or ends with whitespace, and it is empty when the output is no longer than the prompt |
| Qa.AnswerIsContinuation | src/qa.py:69 | When the output is the prompt followed by a continuation, the answer is the continuation stripped |
| Qa.TextAnswer | src/qa.py:33-70 | A failing search fails the answer with its cause; the hits returned are the search's own; the answer is extracted from the generator's output for the prompt; generation fails exactly when the search succeeded and the generator raised |
| Qa.ImageAnswer | src/qa.py:73-100 | The same for an image query, with the image search and the image prompt |
| Qa.AnswersAreContinuations | src/qa.py:33-100 | A generator that echoes the prompt and continues it yields the continuation as the answer, together with the search's hits |
| Qa.AnswerFromText | src/qa.py:33-70 | `answer_from_text` computes `TextAnswer` |
| Qa.AnswerFromImage | src/qa.py:73-100 | `answer_from_image_b64` computes `ImageAnswer` |
| App.Dispatch | src/app.py:15-20 | Non-blank string text wins; otherwise an image is used when present; 400 exactly when there is neither and the text, if any, is a string; non-string text raises |
| App.BlankTextFallsThrough | src/app.py:15-20 | Empty or whitespace-only text counts as no text |
| App.Query | src/app.py:12-21 | The endpoint returns the text answer, the image answer, a 400 with "No text or image provided", or a server error, according to `Dispatch` |

## Left out

- File reading and writing, `json.loads` / `json.dumps`, the persistence of the index and metadata, the removal of the old index directory, console output and Flask's request and response plumbing are not modelled. The model works on the sequences of parsed objects.
- The embedding models, CLIP, the FAISS search and the text generator are parameters. Their ranking, numerics and tokenisation are not modelled.
- The vector normalisation done by the models, and float32 conversion, are not modelled. Normalisation is folded into the image model's output.
- The `:.3f` rendering of a score is the parameter `fmt3`.
- Base64 validity is the parameter `isBase64`.
- Image decoding is part of CLIP's `features` parameter.
- JSON floats are not modelled: page numbers are integers. `str()` of strings inside lists does not escape quotes.
- The key order of Python dicts, which decides the field order in the written JSON, is not modelled: records are maps.
- `request.json` that is not a JSON object is not modelled.
- SearchFaiss.Fits: the index's returned positions must all name a metadata record. FAISS returns -1 when it has fewer than `k` vectors, and Python would then read the last record; this case is excluded.
- SearchFaiss.LoadedFrom: the metadata read back from disk is taken to be the list the build wrote, field for field.
- BuildIndex.Embed: text content that is not a string is treated as failing, because neither `encode` nor `index.add` turns it into one DIM-long row.
- The parsing of PDFs and the browser search component are not part of this model.

## Findings

| source | as written | input that shows it | evidently intended | confidence | as-written member | corrected member |
|---|---|---|---|---|---|---|
| src/build_index.py:66 | `torch.no_grad()` is used but `torch` is never imported, so the image branch raises `NameError` and the `except` drops every image chunk | CLIP loaded, an image chunk whose content passes the base64 check and on which CLIP succeeds | the image chunk is indexed with its normalised CLIP features padded to DIM | high, not executed | BuildIndex.TorchNameErrorDropsImages | BuildIndex.ImageChunkIndexed |

