# rag-plvn text pipeline in Dafny

This project models the text-shaping core of the rag-plvn retrieval-augmented
generation backend and proves properties of it. The core has four parts.

- **Chunk merger** (`merge_nodes`, `merge_small_chunks`): folds every block under
  `min_size` tokens into a neighbouring block of the same file.
- **Paragraph back-reference splitter** (`CustomSentenceSplitter._parse_nodes`): splits
  each block into fragments. Every fragment records the SHA-256 id and the full text of
  the block it came from, and both keys are kept out of the embedding.
- **Retrieval post-processing** (the second half of `retriever`), in four steps:
  - shortens the copies that go to the reranker;
  - keeps the original nodes the reranker returned, in retrieval order;
  - deduplicates the nodes by paragraph id;
  - renders the numbered `<paragraph_i>` bundle, or `Information Not Found`.
- **Request checks of the HTTP handlers**: the `.md` upload check, the collection id
  `name_YYYYmmddHHMMSSffffff`, and the 404 gate on unknown collection ids.

Modules, one per file:

- `Wrappers`: Option and Result.
- `Seqs`: list comprehensions as `Filter` and `FlatMap`, and subsequences.
- `Decimal`: `str(n)` and zero padding, with parsers for the round trips.
- `Hex`: bytes as lower-case hexadecimal text (`hexdigest()`), with its parser.
- `TextNodes`: the text node value.
- `Chunk`, `SentenceSplitter` and `Retrieve`: one per source module.
- `App`: the handler checks.

Code whose behaviour the model does not see becomes a parameter:

- the tokenizer (`tokens: string -> nat`);
- SHA-256 (`sha256`, a function to 32-byte digests);
- the library splitter (`Library`);
- the similarity cutoff test and the reranker.

The Python loops are methods with loop invariants:

- `Chunk.MergeSmallChunks`: the index scan that merges blocks and pops slots.
- `SentenceSplitter.ParseNodes`: stamping the fragments in place.
- `Retrieve.ShortenNodes`, `Retrieve.CollectParagraphs` and `Retrieve.FormatDocuments`.
- `App.FirstNonMarkdown`: the scan over the uploads, which returns early; it changes no list.

Their contracts take two forms:

- `ParseNodes`, `ShortenNodes`, `CollectParagraphs` and `FormatDocuments` are proved
  equal to a specification function. The properties are proved about that function.
- `MergeSmallChunks` and `FirstNonMarkdown` state the property of their result directly.
  For `MergeSmallChunks` that is the grouping into same-file runs and the settled blocks.
  For `FirstNonMarkdown` it is the first non-Markdown name, or none.

Two behaviours of the code are easy to misread:

- **A merged block is not re-checked.** After an undersized block is merged into the
  previous one, index `i` holds the block that followed it. The merged block at `i - 1`
  is not examined again. The model does the same. No block is left that could still
  merge, provided the token count never drops as text is appended (`Chunk.Monotone`).
- **The `full_content` test never fires.** The tested string always starts with
  `Position: ` (`Retrieve.Entry`), so it is never empty. Only a missing or empty
  `paragraph_id` drops a node.

## Model

| member | source | states |
|---|---|---|
| Chunk.MergeNodes | app/rag-be/common/chunk.py:75-80 | the merged block's text is the first text, a blank line, then the second text; it carries the first block's metadata and relationships and no excluded keys |
| Chunk.MergeNodesJoinsGroups | app/rag-be/common/chunk.py:75-80 | merging the blocks of two adjacent groups gives the block of the joined group: text is first text, blank line, second text, in document order; metadata and relationships come from the earlier block |
| Chunk.JoinTextsAppend | app/rag-be/common/chunk.py:77 | joining the texts of two consecutive runs equals joining each run and putting a blank line between them |
| Chunk.Pop | app/rag-be/common/chunk.py:108 | `list.pop(k)` removes exactly slot `k`: earlier slots are unchanged, later ones move down by one |
| Chunk.MergeAt | app/rag-be/common/chunk.py:107-120 | one merge step at `k` shortens the list by one, puts `merge_nodes(nodes[k], nodes[k+1])` in slot `k`, and leaves every other block unchanged (shifted after `k`) |
| Chunk.Decide | app/rag-be/common/chunk.py:88-123 | a merge happens only for an undersized block with a same-file neighbour on that side; the scan advances iff the block is large enough or has no same-file neighbour; with both neighbours eligible it merges into the previous block iff that one has no more tokens than the next |
| Chunk.SingletonGrouping | app/rag-be/common/chunk.py:84-85 | before the scan, every block is a one-block group of its own file |
| Chunk.FuseKeepsGrouping | app/rag-be/common/chunk.py:103-121 | a merge of two same-file blocks fuses their groups: the output is still the input cut into consecutive one-file groups, each turned into its block |
| Chunk.MergedAtNamed | app/rag-be/common/chunk.py:107-120 | after a merge step every block still carries a `file_name` |
| Chunk.MergeKeepsSettledBefore | app/rag-be/common/chunk.py:107-120 | a merge at `k` leaves every block before `k` settled (large enough or without a same-file neighbour) |
| Chunk.MergeIntoPreviousKeepsSettled | app/rag-be/common/chunk.py:114-117 | merging into the previous block keeps every block before the scan position settled, when appending text never lowers the token count |
| Chunk.AdvanceKeepsInvariant | app/rag-be/common/chunk.py:123 | advancing past a block that needs no merge keeps the scan invariant, with one more settled block |
| Chunk.MergeKeepsInvariant | app/rag-be/common/chunk.py:103-121 | every merge branch keeps the scan invariant (partition, file names, settled prefix) |
| Chunk.MergeSmallChunks | app/rag-be/common/chunk.py:83-125 | the output cuts the input into consecutive same-file groups, so no block mixes files and text keeps document order; it is never longer than the input; it is the input itself when no block is undersized; under a monotone tokenizer no block is left that could still merge |
| Hex.HexDigest | app/rag-be/common/sentence_splitter.py:15 | `hexdigest()` writes two lower-case hexadecimal digits per byte |
| Hex.HexRoundTrip | app/rag-be/common/sentence_splitter.py:15 | reading the hexadecimal text back gives the bytes |
| Hex.HexInjective | app/rag-be/common/sentence_splitter.py:15 | distinct byte strings have distinct hexadecimal texts |
| SentenceSplitter.GenerateSourceId | app/rag-be/common/sentence_splitter.py:13-15 | the paragraph id is 64 lower-case hexadecimal digits that read back as the SHA-256 digest of the text |
| SentenceSplitter.SourceIdsDifferForDifferentDigests | app/rag-be/common/sentence_splitter.py:13-15 | texts with different digests get different paragraph ids |
| SentenceSplitter.Stamp | app/rag-be/common/sentence_splitter.py:36-41 | a stamped fragment keeps its text, relationships and other metadata; gains `paragraph_id` and `paragraph_full_content` with the given values; its excluded-embedding keys grow by exactly those two keys, appended |
| SentenceSplitter.ParseNodes | app/rag-be/common/sentence_splitter.py:17-45 | the loop's result is every block's stamped fragments, block after block |
| SentenceSplitter.ParseSpecLength | app/rag-be/common/sentence_splitter.py:43-45 | the number of output units is the total number of fragments the splitter made |
| SentenceSplitter.ParseSpecAt | app/rag-be/common/sentence_splitter.py:23-43 | fragment `m` of block `k` is output unit number (fragments of earlier blocks) + `m`, stamped with block `k`'s hash and verbatim text |
| SentenceSplitter.EveryUnitPointsToItsBlock | app/rag-be/common/sentence_splitter.py:24-41 | every unit carries the hash and the verbatim text of one input block, and both keys are excluded from its embedding |
| SentenceSplitter.SameParagraphSameId | app/rag-be/common/sentence_splitter.py:13-38 | two units with the same full paragraph text have the same paragraph id, from whichever blocks they came |
| Seqs.Filter | app/rag-be/common/retrieve.py:58 | a list comprehension with a condition keeps exactly the elements that satisfy it, in their original order (a subsequence), and keeps the whole list when all do |
| Seqs.FilterCount | app/rag-be/common/retrieve.py:58 | the comprehension keeps each passing element as many times as it occurs in the input, and no failing one |
| Retrieve.CollapseRuns | app/rag-be/common/retrieve.py:47-48 | `re.sub(X+, c, s)`: no two run characters are left adjacent, every run character left is `c`, the characters outside runs are kept in order, and the text never grows |
| Retrieve.CollapseRunsSplit | app/rag-be/common/retrieve.py:47-48 | a character outside the class stays in place, and the text on either side of it is collapsed on its own |
| Retrieve.CollapseRunsOfRun | app/rag-be/common/retrieve.py:47-48 | a whole run becomes exactly one replacement character; with `CollapseRunsSplit` this fixes the result for every text |
| Retrieve.CollapseRunsFixes | app/rag-be/common/retrieve.py:47-48 | a text without runs and with only `c` as run character is left unchanged |
| Retrieve.CollapseRunsIdempotent | app/rag-be/common/retrieve.py:47-48 | collapsing twice is collapsing once |
| Retrieve.CollapseKeepsNoAdjacent | app/rag-be/common/retrieve.py:47-48 | collapsing whitespace after dashes cannot make two dashes adjacent again |
| Retrieve.Truncate | app/rag-be/common/retrieve.py:49 | `text[:n]` is the prefix of length `min(n, len(text))` |
| Retrieve.ShortenText | app/rag-be/common/retrieve.py:46-49 | the reranker's text is the first `min(30000, n)` characters of the collapsed text of length `n`; it has no two adjacent dashes, no two adjacent whitespace characters, and only spaces as whitespace |
| Retrieve.Sanitize | app/rag-be/common/retrieve.py:46-50 | a sanitised copy keeps the node id, has empty metadata, and carries the shortened text of the original (`ShortenText`): at most 30000 characters, no longer than the original, with no repeated dash or whitespace |
| Retrieve.ShortenNodes | app/rag-be/common/retrieve.py:45-50 | each copy keeps its node id, has its text shortened and its metadata cleared; the original nodes are values and stay as they were |
| Retrieve.FilterByIds | app/rag-be/common/retrieve.py:57-58 | the kept nodes are exactly the original nodes whose id the reranker returned, each as often as it was retrieved, in retrieval order |
| Retrieve.Survivors | app/rag-be/common/retrieve.py:39-58 | a retrieved node survives iff it passes the cutoff (when enabled) and its id is among the reranked ids (when rerank is enabled); survivors keep their multiplicity and retrieval order |
| Retrieve.Entry | app/rag-be/common/retrieve.py:66 | the display string always starts with `Position: `, so the `full_content` test never drops a node |
| Retrieve.SeenIds | app/rag-be/common/retrieve.py:62-70 | `seen_ids` after the nodes holds the paragraph id of every node that has one |
| Retrieve.Dedup | app/rag-be/common/retrieve.py:61-70 | deduplication keeps only nodes with a non-empty paragraph id, in input order |
| Retrieve.DedupKeepsFirst | app/rag-be/common/retrieve.py:68-70 | a node whose paragraph id no earlier node had is kept |
| Retrieve.DedupOnlyFirst | app/rag-be/common/retrieve.py:68-70 | every kept node has a paragraph id that no earlier node had |
| Retrieve.DedupKeepsEveryId | app/rag-be/common/retrieve.py:61-70 | the kept nodes cover every paragraph id present in the input |
| Retrieve.DedupIdsDistinct | app/rag-be/common/retrieve.py:61-70 | no paragraph id is kept twice |
| Retrieve.DedupFixes | app/rag-be/common/retrieve.py:61-70 | nodes that all have distinct paragraph ids are kept as they are |
| Retrieve.DedupIdempotent | app/rag-be/common/retrieve.py:61-70 | deduplicating twice is deduplicating once |
| Retrieve.CollectParagraphs | app/rag-be/common/retrieve.py:61-70 | the loop with `seen_ids` yields the display strings of exactly the deduplicated nodes, in order |
| Decimal.NatToString | app/rag-be/common/retrieve.py:77-83 | `str(i+1)` is a non-empty digit string with no leading zero, one digit exactly for numbers below 10 |
| Decimal.NatToStringRoundTrip | app/rag-be/common/retrieve.py:77-83 | reading the numeral back gives the number |
| Decimal.NatToStringInjective | app/rag-be/common/retrieve.py:77-83 | distinct paragraph numbers get distinct tags |
| Retrieve.OpeningTag | app/rag-be/common/retrieve.py:77-79 | the opening tag is a newline, `<paragraph_`, digits that read back as the paragraph number, `>` and a blank line |
| Retrieve.ClosingTag | app/rag-be/common/retrieve.py:81-84 | the closing tag is a blank line, `</paragraph_`, digits that read back as the paragraph number, `>` and a blank line |
| Retrieve.ParagraphBlockLayout | app/rag-be/common/retrieve.py:77-84 | a paragraph block is the opening tag, the chunk verbatim, then the closing tag, each at its own offset |
| Retrieve.FormatDocuments | app/rag-be/common/retrieve.py:72-86 | the early return and the `documents +=` loop yield the sentinel for no chunks, otherwise the header followed by the numbered paragraph blocks |
| Retrieve.Document | app/rag-be/common/retrieve.py:72-86 | the result is `Information Not Found` exactly when no paragraph survived; otherwise it starts with the `List Paragraph Related:` header |
| Retrieve.ParagraphsPrefix | app/rag-be/common/retrieve.py:76-84 | the bundle of the first `n` chunks is a prefix of the whole bundle |
| Retrieve.ParagraphAt | app/rag-be/common/retrieve.py:76-84 | chunk `k` appears verbatim as `<paragraph_{k+1}>` block right after the blocks of chunks 1..k |
| Retrieve.Retriever | app/rag-be/common/retrieve.py:39-86 | the post-processing returns the rendering of the deduplicated entries of the surviving nodes |
| App.Lower | app/rag-be/app.py:55 | lower-casing keeps the length, changes exactly the characters `A`-`Z`, and leaves no upper-case ASCII letter |
| App.IsMarkdownName | app/rag-be/app.py:55 | a file name is accepted iff it ends in `.`, `m` or `M`, `d` or `D` |
| App.FirstNonMarkdown | app/rag-be/app.py:54-59 | the loop finds nothing iff every upload is Markdown; otherwise it returns the first upload that is not |
| Decimal.ZeroPad | app/rag-be/app.py:63 | a zero-padded field has exactly its width in digits |
| Decimal.ZeroPadRoundTrip | app/rag-be/app.py:63 | reading a zero-padded field back gives the number |
| App.Timestamp | app/rag-be/app.py:63 | the timestamp is exactly 20 decimal digits |
| App.TimestampRoundTrip | app/rag-be/app.py:63 | the timestamp determines the instant, down to the microsecond |
| App.CollectionId | app/rag-be/app.py:66 | the id is the collection name, `_`, then 20 digits |
| App.CollectionIdRoundTrip | app/rag-be/app.py:62-69 | cutting an id at its last 21 characters gives back the name and the instant |
| App.Indexer | app/rag-be/app.py:54-72 | a single non-Markdown upload yields the 400 error naming the first such file, and indexing is not called; otherwise indexing is called with the new collection and all uploads |
| App.InvalidIds | app/rag-be/app.py:96-99 | `invalid_ids` holds exactly the requested ids absent from the registry, each as often as it was requested, in request order, and is empty iff every requested id is registered |
| App.RetrieveHandler | app/rag-be/app.py:96-107 | retrieval is called with the request's question and ids iff every id is registered; otherwise the 404 error carries the unknown ids |

## Left out

- Contextual enrichment (`process_node`, `process_nodes`, `context_retrieval.py`): a thread pool around an LLM call; its output order depends on completion order.
- Document loading and Markdown parsing in `chunker`: file I/O and library code.
- Token counting (tiktoken) and SHA-256: foreign libraries, passed in as the functions `tokens` and `sha256`; the UTF-8 encoding before hashing is folded into `sha256`.
- Library sentence splitting (`split_text_metadata_aware`, `build_nodes_from_splits`, the metadata string): not visible, passed in as `Library`; no claim is made about fragment sizes or separators.
- Node ids of fresh blocks and fragments: uuids generated by the library; not modelled.
- Retrieve.Retriever: takes the cutoff test and the rerank model as total functions and always returns a bundle. In the source, an exception raised by either propagates out of `retriever` uncaught. `rerank_client` may also be `None`, or its `get_rerank_model` may return `None` for an unknown provider, and then the call fails with an AttributeError. The model has no error path for these.
- Similarity search, the similarity cutoff and the rerank model: library and network code, passed in as the hit list, a predicate and a function; no claim about the boundary score. Scores are floats and are not modelled.
- Metadata aliasing: `merge_nodes` shares `node1.metadata`, and fragments may share dictionaries with their block; metadata here is a value, so later in-place writes are not shared.
- SentenceSplitter.Stamp: treats each fragment's `excluded_embed_metadata_keys` as its own list. If the library hands several fragments the same list object, the in-place `extend` appends the two keys to that shared list once per fragment; the model does not capture this aliasing.
- Vector store, registry client, orchestration in `services.py`, FastAPI/MCP wiring, UI and client scripts, `schema.py`: plumbing.
- Chunk.MergeSmallChunks: requires every block to carry `file_name`. The source reads `file_name` only for an undersized block and its neighbours, and raises KeyError when it is missing. The blocks that reach the merger come from the Markdown reader, which always sets `file_name`.
- Chunk.MergeSmallChunks: the fixed point (no block could still merge) is proved only for a tokenizer whose count never drops when text is appended (`Chunk.Monotone`); tiktoken does not promise this.
- Chunk.MergeSmallChunks: the default `min_size=100` is a parameter.
- App.Timestamp: pads years below 1000 to four digits; what the C library's `%Y` does for such years depends on the platform.
- App.Lower: lower-cases only `A`-`Z`, unlike `str.lower()`, which also lower-cases other letters (`"É"` becomes `"é"` there and stays `"É"` here); the model needs it only for the `.md` suffix test, whose outcome does not depend on those letters.
- App.IsMarkdownName: lower-cases only `A`-`Z`. No other character lower-cases to `.`, `m` or `d`, and the one that lower-cases to two characters (U+0130) ends in a combining mark, so the suffix test does not change.
- App.RetrieveHandler: the 404 detail text renders the id list with Python's `repr`; the error carries the list instead.
- App.Indexer: the 400 detail text is not rendered; the error carries the rejected file name it is built from.
- App.Indexer: the call into `RAGService.index` is returned as its arguments rather than made; its own failures are not modelled.
