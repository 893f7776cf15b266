# Policy-document chatbot: a verified model of its text pipeline

This project models the text-handling core of a retrieval chatbot for policy
documents. The chatbot runs in four steps:

1. Extraction turns a Docling JSON document into typed sections, tables and
   lists.
2. Chunking cuts every section into token-bounded chunks and gives each chunk
   a title.
3. The vector store loads the chunk files and writes the metadata records that
   sit beside the embeddings.
4. The chat step rewrites the query into up to five variants, looks up the
   nearest neighbours of each, removes duplicate contents, builds the context
   and answers with the last three exchanges as history.

The model is in Dafny, one module per source file:

| module | file | models |
|---|---|---|
| `ChunkText` | `chunk_text.dfy` | `src/chunk_text.py` |
| `ProcessDocx` | `process_docx.dfy` | `src/process_docx.py` |
| `Chatbot` | `chatbot.dfy` | `src/chatbot.py` |
| `VectorStore` | `vector_store.dfy` | `src/vector_store.py` |
| `Pipeline` | `pipeline.dfy` | the hand-over from `metadata.json` to `search_faiss` |

Three modules are shared:

- `Strings` models the Python string operations the code relies on: `isspace`, `strip`, `split`, `join`, `find`, `replace`, `lower` and integer formatting.
- `Seqs` flattens lists of lists.
- `Wrappers` holds `Option` and `Result`.

**Loops.** Where the source loops and appends, the model is a `method` with the
same loop. Its `ensures` ties the result to a specification function, and the
properties are proved about that function as lemmas.

**Exceptions.** The exceptions the code can raise are `Err` results in the
model:

- `KeyError` on `doc["title"]` and on `chunk["text"]`;
- `IndexError` on `metadata[idx]` and on `metadata[i]`.

**Missing input.** An absent or non-list input is `None`, and a non-dict entry
has its own constructor.

**Parameters.** These are function parameters, never implemented:

- the tokenizer (`count: string -> nat`);
- the embedding model;
- the FAISS search (`(string, nat) -> seq<int>`);
- the Ollama chat model.

**The conversation history.** The `deque(maxlen=3)` is the class
`Chatbot.ChatHistory`, whose `Append` updates its `entries` field in place.

**Notable behaviours of the code that the model keeps:**

- Table rows are windows of `len(headers)` cells, and the last window is kept
  even when it is shorter.
- Query-expansion parsing removes every occurrence of the line's marker
  `"{i+1}."`, anywhere in the line. It is not only a leading prefix, and `i`
  is the position in the unfiltered line list.
- A FAISS padding index `-1` passes the `idx < len(metadata)` guard and reads
  the last metadata record.

## Model

| member | source | states |
|---|---|---|
| Strings.StripSpec | src/chunk_text.py:18 | `str.strip()` removes exactly the leading and trailing whitespace: it returns an infix of the input; it is empty iff the input is all whitespace; otherwise it begins and ends with a non-space character. |
| Strings.StripIdempotent | src/chunk_text.py:18 | Stripping twice is stripping once. |
| Strings.StripNonBlankAppend | src/chunk_text.py:18 | The "strip, keep if non-empty" comprehension distributes over concatenation, so it keeps input order. |
| Strings.Split | src/chunk_text.py:38 | `str.split(sep)` gives at least one piece. Joining the pieces with `sep` restores the input, and no piece contains `sep`. |
| Strings.SplitLeftmost | src/chunk_text.py:38 | `str.split` cuts at the leftmost occurrence each time: no occurrence of `sep` starts inside any piece but the last, not even one overlapping the separator after it (so `"\n\n\n".split("\n\n")` is `["", "\n"]`). |
| Strings.SplitJoin | src/chatbot.py:66 | Splitting a join by the same separator gives the parts back when no part, nor a part followed by the separator, holds the separator. |
| Strings.RemoveAllIsJoinOfSplit | src/chatbot.py:34 | `replace(p, "")` equals joining `split(p)` with the empty string. |
| Strings.RemoveAllPrefix | src/chatbot.py:34 | Removing `p` from `p + rest` gives `rest` when `rest` has no `p`. |
| Strings.DecimalRoundTrip | src/chatbot.py:34 | The decimal digits of `i+1` in the f-string read back as the same number. |
| Strings.LowerAsciiIdempotent | src/process_docx.py:19 | Lower-casing keeps the length and is idempotent. |
| ChunkText.BlankLineSegments | src/chunk_text.py:18 | `re.split(r"\n\s*\n", text)` as segments: there is at least one, and their pieces and separators concatenate to the text. Every separator but the last is a blank-line match (newline, whitespace, newline), and the last separator is empty. |
| ChunkText.FindBlankLine | src/chunk_text.py:18 | The next blank-line match lies at or after the search start and is a genuine `\n\s*\n` match. |
| ChunkText.BlankLineMatchLongest | src/chunk_text.py:18 | Whenever some `\n\s*\n` match starts at a position, the greedy match there exists and ends at or after it: it is the longest match. |
| ChunkText.FindBlankLineSpec | src/chunk_text.py:18 | The match found is the leftmost one at or after the start (no match starts between the start and it, and `None` means no match starts anywhere after the start), and the longest at its position. |
| ChunkText.BlankLineSegmentsSpec | src/chunk_text.py:18 | Every segment is cut from the text remaining at its position as `re.split` cuts it: its piece runs up to the leftmost match, its separator is the longest match there, and the last segment has no match at all. |
| ChunkText.BlankLinePiecesClean | src/chunk_text.py:18 | No piece holds a blank-line match of its own. |
| ChunkText.ParagraphsStrippedNonEmpty | src/chunk_text.py:18 | Every paragraph `split_into_paragraphs` returns is non-empty and already stripped. |
| ChunkText.SingleLineParagraph | src/chunk_text.py:18 | Text without a newline is one paragraph (its strip), or none when it is blank. |
| ChunkText.ParagraphUnitsRejoin | src/chunk_text.py:37-38 | A paragraph's units (itself, or its `". "` pieces when over budget) joined by `". "` restore the paragraph. |
| ChunkText.PackCovers | src/chunk_text.py:33-59 | Concatenating the unit groups of all emitted chunks gives exactly the unit sequence, in order. |
| ChunkText.PackFits | src/chunk_text.py:37-56 | Every group of two or more units has a token sum within `max_tokens`. |
| ChunkText.OversizedUnitAlone | src/chunk_text.py:37-56 | A unit whose own count exceeds `max_tokens` is alone in its chunk. |
| ChunkText.PackBoundaries | src/chunk_text.py:42-45 | Greedy maximality. Every chunk after the first is non-empty, and the previous chunk's sum plus its first unit's count exceeds `max_tokens`. |
| ChunkText.PackFirst | src/chunk_text.py:42-43 | No units give no chunks. Otherwise the first chunk is empty iff the first unit alone exceeds the budget (the empty accumulator is flushed). |
| ChunkText.ChunksEmptyIff | src/chunk_text.py:28 | `semantic_chunking` returns `[]` iff the text has no non-blank paragraph. |
| ChunkText.EmptyFirstChunk | src/chunk_text.py:37-45 | An over-budget first paragraph whose first sentence is itself over budget makes the first chunk `""`. |
| ChunkText.SingleChunkWhenAllFit | src/chunk_text.py:49-59 | When every paragraph fits and so does their total, there is exactly one chunk: the paragraphs joined by single spaces. |
| ChunkText.UnitsWithinBudget | src/chunk_text.py:37 | Paragraphs within budget are their own units. |
| ChunkText.AddUnit | src/chunk_text.py:42-56 | One loop step: flush if the unit does not fit, then append. The chunk texts, the running length and the remaining packing all agree with the specification. |
| ChunkText.AddParagraph | src/chunk_text.py:34-56 | One paragraph of the outer loop: the paragraph itself, or each of its sentences in turn when it is over budget, is packed as the specification packs the paragraph's units. |
| ChunkText.SemanticChunking | src/chunk_text.py:25-61 | The loop over paragraphs and sentences returns exactly the specified chunks: the greedy packing of the units, each joined by one space. |
| ChunkText.TitleOfPrefixedText | src/chunk_text.py:22-23 | `"<t> – <rest>"` gets the title `t.strip()` when `t` is one line and contains no `" – "` of its own. |
| ChunkText.UntitledWithoutPrefix | src/chunk_text.py:22-23 | With no `" – "`, or a newline before the first one, the title is `"Untitled Section"`. |
| ChunkText.ChunkTitleSpec | src/chunk_text.py:87 | A chunk keeps any section title but `"list_item"`. Under `"list_item"`, a chunk opening with a one-line `"<t> – "` (with no earlier `" – "`) is titled `t.strip()`, and a chunk with no `" – "`, or a newline before the first one, is `"Untitled Section"`. |
| ChunkText.SectionChunkAt | src/chunk_text.py:80-89 | Entry `j` of a section is chunk `j` of the section's joined content, under that title. |
| ChunkText.DocumentChunkAt | src/chunk_text.py:80-89 | The document's chunk list is the per-section lists in section order. Entry `j` of section `k` sits at that section's offset plus `j`. |
| ChunkText.DocumentChunksSnoc | src/chunk_text.py:80-89 | Adding one section appends exactly its entries. |
| ChunkText.AppendTitled | src/chunk_text.py:85-89 | The inner loop appends one titled entry per chunk. |
| ChunkText.ChunkSections | src/chunk_text.py:80-89 | The loop over sections yields exactly the specified document chunk list. |
| ChunkText.ChunkDocument | src/chunk_text.py:75-93 | The output document has `document_name` defaulting to `""`, the chunk list of its sections, and the tables and lists passed through unchanged. |
| ProcessDocx.ProcedureIff | src/process_docx.py:19-24 | The type is `procedure_step` iff the lower-cased label contains `"procedure"`. It is `policy_section` iff the lower-cased label is one of the five policy titles. |
| ProcessDocx.ClassifyIgnoresCase | src/process_docx.py:19-21 | Classification depends only on the lower-cased label. |
| ProcessDocx.ProcedureAbsent | src/process_docx.py:19-21 | No policy title contains `"procedure"`, so the two tests never overlap. |
| ProcessDocx.KeptItemsTexts | src/process_docx.py:14-16 | The kept items' texts are exactly the `"text"` values of the dict entries, stripped, with the blank ones dropped, in document order. |
| ProcessDocx.KeptItemsTitles | src/process_docx.py:14-15 | The kept items' titles are exactly the stripped `"label"` values (default `""`) of the entries with non-blank text, in document order. |
| ProcessDocx.KeptItemsLabelled | src/process_docx.py:15-24 | Every kept item's title is stripped, and its type is the classification of that title. |
| ProcessDocx.RunsShape | src/process_docx.py:27-39 | There are no more sections than kept entries, and none only when no entry is kept. The first section takes the first entry's type and label. Every section has content, and adjacent sections never share a type. |
| ProcessDocx.RunsContents | src/process_docx.py:36 | Concatenating the sections' contents gives exactly the stripped texts of the kept entries, in order. |
| ProcessDocx.RunsAt | src/process_docx.py:27-36 | Content line `j` of section `k` is the kept entry at the section's offset plus `j`, of the section's type. A section's title is the label of the first entry of its run. |
| ProcessDocx.AddItem | src/process_docx.py:27-36 | One loop step: close the current section and open a new one when the type changes, else append to it, keeping the rest of the grouping as specified. |
| ProcessDocx.ExtractText | src/process_docx.py:7-41 | `extract_text_from_docling` returns exactly the specified sections. A missing or non-list `"texts"` gives `[]`. |
| ProcessDocx.SectionsSpec | src/process_docx.py:27-39 | The extracted sections are non-empty, adjacent types differ, and the contents flatten to the kept texts. |
| ProcessDocx.CollectCells | src/process_docx.py:52-57 | The cell loop sends the stripped non-blank texts to `headers` when `column_header` is set and to `rows` otherwise, in order. |
| ProcessDocx.WindowsShape | src/process_docx.py:63 | The row windows concatenate to the row cells. Every window but the last has `len(headers)` cells, and the last has between 1 and `len(headers)`. |
| ProcessDocx.WindowsCount | src/process_docx.py:63 | The number of windows is the ceiling of cells over width, and it is zero iff there are no cells. |
| ProcessDocx.WindowsAt | src/process_docx.py:63 | Window `k` is the slice `rows[k*w : k*w+w]`. |
| ProcessDocx.TableSpec | src/process_docx.py:49-64 | An emitted table has non-empty headers and non-empty rows. Its rows flatten to the row cells, none is wider than the headers, and all but the last have the headers' width. |
| ProcessDocx.ExtractTables | src/process_docx.py:43-66 | `extract_tables_from_docling` returns exactly the specified tables, one per entry that has both headers and row cells. |
| ProcessDocx.TablesAppend | src/process_docx.py:48-64 | Tables are in entry order: the result for a concatenation is the concatenation of the results. |
| ProcessDocx.ExtractLists | src/process_docx.py:68-84 | `extract_lists_from_docling` returns exactly the specified lists. |
| ProcessDocx.ListsNonEmpty | src/process_docx.py:76-78 | Every emitted list has items, and every item is non-empty and stripped. |
| ProcessDocx.ListsAppend | src/process_docx.py:73-82 | Lists are in entry order. |
| Chatbot.NonBlankIff | src/chatbot.py:34 | A line has a non-whitespace character iff `q.strip()` is truthy, iff it is not all whitespace. |
| Chatbot.ParseFromAt | src/chatbot.py:34 | Parsed entry `k` comes from the `k`-th non-blank line, with that line's own position marker removed and the line stripped. |
| Chatbot.Positions | src/chatbot.py:34 | Every kept position is a non-blank line at or after the start. |
| Chatbot.PositionsSpec | src/chatbot.py:34 | The kept positions increase and include every non-blank line, so they are exactly the non-blank lines in order. |
| Chatbot.ExpansionsSpec | src/chatbot.py:33-37 | There are `min(5, n)` expansions for `n` non-blank reply lines, taken from the first of them in order. |
| Chatbot.NumberedLine | src/chatbot.py:34 | A line `"3. text"` at position 2 parses to `text.strip()`. |
| Chatbot.CollectFromSpec | src/chatbot.py:48-54 | The neighbour loop appends exactly the guarded hits when no index raises, and fails when one does. |
| Chatbot.HitsSpec | src/chatbot.py:48-54 | Each hit is a record's title and text, or `"No content found."`. There are no more hits than indices, and a list of indices all at or above `len(metadata)` gives none. |
| Chatbot.HitsSkipLarge | src/chatbot.py:49 | Any single index at or above `len(metadata)`, wherever it stands, contributes nothing: dropping it leaves the hits unchanged. |
| Chatbot.CollectQueriesSpec | src/chatbot.py:44-54 | Results are appended in expansion order, then neighbour order. |
| Chatbot.CollectNeighbours | src/chatbot.py:48-54 | The loop over one expansion's indices computes the specified result or error. |
| Chatbot.CollectAll | src/chatbot.py:44-54 | The loop over the expansions computes the specified raw result list or error. |
| Chatbot.SearchFaiss | src/chatbot.py:39-58 | `search_faiss` returns the dedup of the raw results, or the first exception. |
| Chatbot.KeyIndex | src/chatbot.py:57 | The dict lookup finds the entry with that content, or reports that none has it. |
| Chatbot.KeyIndexLast | src/chatbot.py:57 | Over the raw list, the lookup finds the last entry with the content: no later entry has it. |
| Chatbot.FirstWithFirst | src/chatbot.py:57 | The first occurrence of a content has no earlier entry with that content. |
| Chatbot.DedupSpec | src/chatbot.py:57-58 | The dedup has pairwise distinct contents and the same content set as the raw list. Each entry is the last raw entry with its content, and entries are ordered by the first occurrence of their content. |
| Chatbot.InsertPresent | src/chatbot.py:57 | Re-inserting a present content replaces its entry in place and keeps the dedup properties. |
| Chatbot.InsertNew | src/chatbot.py:57 | Inserting a new content appends it and keeps the dedup properties. |
| Chatbot.EntrySeparable | src/chatbot.py:66 | A context entry whose title and content hold no `"\n\n"` and do not end in a newline holds no `"\n\n"`, even where it meets the next separator. |
| Chatbot.ContextSplits | src/chatbot.py:66 | When no title or content holds `"\n\n"` or ends in a newline, the context string splits on `"\n\n"` back into one `"Title: …\nContent: …"` block per document, in result order. |
| Chatbot.Recent | src/chatbot.py:18 | The bounded buffer holds at most `maxlen` entries, and they are the newest ones. |
| Chatbot.RecentAppend | src/chatbot.py:18 | Appending to the bounded buffer equals appending to the full history and then keeping the last `maxlen` entries. |
| Chatbot.AppendAllRecent | src/chatbot.py:18 | After any sequence of appends, the buffer is the last `maxlen` entries ever appended, oldest evicted first. |
| Chatbot.ChatHistory.constructor | src/chatbot.py:18 | A new history is empty, with the given capacity. |
| Chatbot.NewChatHistory | src/chatbot.py:18 | The module's history starts empty with room for the last three exchanges. |
| Chatbot.ChatHistory.Append | src/chatbot.py:67 | `append` keeps the last `capacity` of the old entries plus the new one. |
| Chatbot.GenerateResponse | src/chatbot.py:60-86 | With no documents, the answer is the fixed apology, the history is unchanged and no prompt is sent. Otherwise the history gains `"User: q\nBot: context"`, and the prompt carries the context, the concatenated history and the question. |
| Chatbot.Chat | src/chatbot.py:88-92 | A search error leaves the history unchanged. No results give the apology. Results extend the history by one exchange (for a history of any capacity; the module's own has capacity 3, see `NewChatHistory`), and the answer is the chat model's reply to the prompt of the context, the updated history and the question. |
| VectorStore.FileOrigins | src/vector_store.py:27-33 | Only files ending in `.json` contribute, one origin per chunk of the file. |
| VectorStore.FirstMissing | src/vector_store.py:34 | The first chunk without `"text"` is the one that raises. |
| VectorStore.MissingAt | src/vector_store.py:33-34 | A text-less chunk after chunks that all have text makes `load_chunks` raise at that file and position. |
| VectorStore.LoadFile | src/vector_store.py:27-35 | One file's contribution extends both lists by the specified entries, or raises as specified. |
| VectorStore.LoadChunks | src/vector_store.py:21-37 | `load_chunks` returns exactly the specified parallel lists, or the first `KeyError`. |
| VectorStore.LoadAligned | src/vector_store.py:33-35 | The two lists have equal length. Position `i` of both comes from the same chunk: its text, and its title (default `"Untitled"`) with its file's name. |
| VectorStore.LoadFailsIff | src/vector_store.py:34 | Loading fails iff some chunk of a `.json` file lacks `"text"`. |
| VectorStore.OriginsFromFiles | src/vector_store.py:26-35 | Every loaded chunk is the chunk at a recorded position of a listed `.json` file. |
| VectorStore.ChunkLoadedAt | src/vector_store.py:26-35 | Chunk `j` of file `k` is loaded at a fixed position. |
| VectorStore.LoadOrder | src/vector_store.py:26-35 | Load order is listing order, then chunk order within a file. |
| VectorStore.NoChunkFiles | src/vector_store.py:27 | A listing without `.json` files loads nothing. |
| VectorStore.BuildFaissIndex | src/vector_store.py:39-65 | An empty input stops early and builds nothing. Otherwise vector `i` is the embedding of text `i`. Metadata at least as long gives record `i` = metadata `i`'s title and filename with text `i`; shorter metadata fails after the vectors are written. |
| VectorStore.LoadThenIndex | src/vector_store.py:33-35 | Load followed by build puts each vector beside the record of the chunk it embeds. |
| Pipeline.WrittenMetadataResolves | src/chatbot.py:48-54 | Over metadata written by the build, no index at or above `-len(records)` raises (so `-1` is safe whenever some record was written). Every hit is the title and text of a written record. |
| Pipeline.PaddingReadsLast | src/chatbot.py:48-50 | The FAISS padding index `-1` passes the guard and returns the last record. |

## Left out

- Token counting: tiktoken (`src/chunk_text.py:8-14`) is the parameter `count: string -> nat`. Its values are never computed.
- Embeddings: the Hugging Face and sentence-transformers models, torch mean-pooling and float vectors are an opaque `embed` function. They are numerics behind foreign libraries.
- FAISS: index construction, writing and reading it, and k-NN search are left out. Search is an oracle returning a sequence of ints. `BuildFaissIndex` returns the vectors it would add.
- LLM calls: the Ollama calls are function parameters, `expand` for the query rewrite and `llm` for the answer. The prompt text beyond its three pieces (context, joined history, question) is not modelled.
- File and console I/O: `os.listdir`, `open`, `json.load`/`json.dump`, `os.makedirs` and `print` are left out. File contents are input sequences of parsed records.
- `process_docx_with_docling`, `process_all_documents` and `process_and_store_vectors`: there is only Docling conversion and directory plumbing around the modelled functions.
- `main.py`: argparse and Streamlit UI plumbing.
- Module-level globals: the global `metadata`, `index` and `chat_history` are explicit parameters and a `ChatHistory` object.
- Strings.LowerAscii: lower-cases ASCII letters only. Full Unicode case mapping is left out.
- Whitespace: `Strings.IsSpace` follows `str.isspace` for ASCII and the common Unicode space characters. It does not consult the full Unicode database.
- ChunkText.ChunkSections: takes the chunker as `Chunker(count, maxTokens)`. Each section's chunks are those of `SemanticChunks`, which keeps the section proofs independent of the chunking proofs.
- Entries that are dicts with other field types: a `"text"` that is not a string, or `"items"` elements that are not dicts. These would raise in Python. The model types every field as a string, a list or absent.
- The default `max_tokens=512` of `semantic_chunking` and `process_extracted` is not built in: the budget is the parameter `maxTokens` of every member that uses it.
- Concurrency: the Streamlit app may run several sessions against the one global history. That is not modelled.
