# Verified model of the ISO/IEC 17025 RAG assistant's own logic

The repository is a retrieval-augmented-generation demo: an indexing script
embeds a corpus of ISO/IEC 17025:2017 requirements into a FAISS index, and a
FastAPI service answers questions by retrieving passages and forwarding them,
inside a fixed Portuguese prompt, to a hosted chat-completion model. Almost
everything is done by libraries. This Dafny project models the two pieces of
logic the repository writes itself, with every library call as a parameter:

- **Corpus selection and batching** (`api/create_vector_store.py`). The
  decoded JSON value must be a non-empty list. Its first record alone decides
  the format: titled (`titulo` and `texto`) or plain (`texto` only). Records
  whose `texto` is blank are dropped. A kept record contributes its `texto`
  unchanged, or `titulo + ". " + texto` in the titled format. The texts are then
  encoded in consecutive batches of 16, and the resulting vectors are paired
  with the texts by position. Modules `Json`, `Corpus`, `Embedding` and
  `VectorStore`.
- **The `/ask` handler** (`api/main.py`, `ask_rag`). It strips the question
  and refuses an empty one with `{"error": "Consulta vazia"}`. Otherwise it
  asks the index for 5 documents and joins their text with blank lines into the prompt
  template. A failing completion call becomes error text in `answer`. The
  response holds the stripped question, the answer, a prefix of at most 250
  characters of each document, and the number of documents. Module `Ask`.

Python's own string operations (`str.isspace`, `str.strip`, `in` on strings,
`str.join`, `s[:n]`) are in module `Text`. `Wrappers` holds `Option` and
`Result`.

The library calls are parameters:
- the sentence encoder is `encode: seq<string> -> seq<V>`, over any vector type `V`;
- `faiss_index.similarity_search(question, k)` is `search: (string, nat) -> seq<Document>`;
- the chat-completion call is `complete: string -> Completion`, either
  `Completed(content)` or `Raised(message)`. `message` is what `str(e)` gives.
  A missing `content` or an empty `choices` list raises inside the same
  `try`, so both are `Raised` too.
- Python's `str()` of a non-string `titulo` is `pyStr: Json -> string`.

A pure model cannot observe which calls the handler makes. So the facts
that the search is called only with k = 5 and that an empty question calls
neither service are stated as independence: the response does not change
when the services change anywhere else.

How the corpus loader treats its records:
- The first record fixes the format for the whole list.
- In the titled format, a kept record without `titulo` raises `KeyError`.
- In the plain format, titles of later records are ignored.
- The loader also fails when a record is not a dict, when a `texto` is not
  a string, and when the first record is null, a boolean or a number (`in`
  on such a value raises `TypeError`).
- On a string or list first record, `in` does not raise: it tests for the
  substring or the element `texto`. When that is found, the loader fails at
  `.get` on that record (`RecordNotObject(0)`); otherwise it raises "format
  not recognised".
Each failure is a `CorpusError` case.

## Model

| member | source | states |
|---|---|---|
| Ask.PromptTemplate | api/main.py:71-87 | definition: the f-string's fixed text around `{context}` and `{question}`; `Ask.PromptHoldsDocument` and `Ask.PromptHoldsQuestion` state where the filled parts sit |
| Ask.Prompt | api/main.py:71-87 | definition: the template filled with the context and the question; its properties are stated by `Ask.PromptHoldsDocument` and `Ask.PromptHoldsQuestion` |
| Ask.Context | api/main.py:68 | definition: the document texts joined by blank lines; `Text.JoinPiece`, `Text.JoinSeparators` and `Ask.PromptHoldsDocument` state its layout |
| Ask.Contents | api/main.py:68 | the list joined into the context has one entry per document, the document's text, in retrieval order |
| Ask.AnswerText | api/main.py:90-99 | definition: the stripped content, or the error prefix followed by the failure message; stated by the contract of `Ask.AskRag` |
| Ask.Snippets | api/main.py:105 | definition: the 250-character prefix of each document; stated by the contract of `Ask.AskRag` and by `Text.Prefix` |
| Text.IsSpace | api/main.py:62 | definition: the characters `str.isspace()` accepts; used by the contracts of `Text.Strip`, `Text.StripIsSlice` and `Text.Blank` |
| Text.Join | api/main.py:68 | definition: `str.join`; stated by `Text.JoinPiece`, `Text.JoinSeparators` and `Text.OffsetIncreasing` |
| Embedding.Batches | api/create_vector_store.py:55-56 | definition: the slices `texts[i:i+16]` for i in `range(0, len(texts), 16)`; stated by `Embedding.BatchesShape` and `Embedding.BatchAt` |
| Embedding.EncodeAll | api/create_vector_store.py:55-58 | definition: the encodings of the batches, concatenated in order; the loop `Embedding.EmbedTexts` is proved to compute it and `Embedding.EncodedPositions` locates each vector |
| Json.Get | api/create_vector_store.py:29 | definition: `dict.get` with a default; used by `Corpus.TextOf` |
| Corpus.TextOf | api/create_vector_store.py:29 | definition: `item.get('texto', '')`; stated by `Corpus.RecordTextSpec` |
| Corpus.Show | api/create_vector_store.py:29 | definition: `str()` of the title inside the f-string, a string itself and anything else through `pyStr`; stated by `Corpus.RecordTextSpec` |
| Corpus.Kept | api/create_vector_store.py:29-33 | definition: the comprehension's filter; `Corpus.RecordTextSpec` and `Corpus.ExtractSelects` state that exactly the records it accepts are kept |
| Corpus.LoadTexts | api/create_vector_store.py:23-39 | the "empty or invalid" error is returned exactly when the decoded value is not a list or is an empty list; a successful load is never longer than the input and its first record is a dict with `texto` |
| Corpus.DetectFormat | api/create_vector_store.py:25-36 | for a dict first record: titled iff it has `titulo` and `texto`, plain iff only `texto`, "format not recognised" iff no `texto`; TypeError exactly for null, boolean and number first records |
| Json.In | api/create_vector_store.py:27-31 | Python's `in` raises exactly for null, booleans and numbers; on a dict it tests the keys, on a list the elements, on a string the substrings (`Text.Contains`, characterised by `Text.ContainsAt` and `Text.ContainsOccurs`) |
| Corpus.ValueErrorMessage | api/create_vector_store.py:35-38 | the two errors the script raises itself carry a message, and no other error has a message the script writes itself |
| Corpus.RecordText | api/create_vector_store.py:29-33 | an error raised while visiting a record names that record's position |
| Corpus.RecordTextSpec | api/create_vector_store.py:29-33 | a record is dropped exactly when it is a dict whose `texto` (default "") is all white space; kept exactly when that text has a non-space character (and, titled, a `titulo` exists); plain output is `texto` unstripped, titled output is `titulo + ". " + texto` |
| Corpus.ExtractFrom | api/create_vector_store.py:29-33 | the comprehension yields at most one text per record, and any error comes from one of the records it visits |
| Corpus.ExtractSucceedsIff | api/create_vector_store.py:29-33 | the comprehension succeeds exactly when no record raises |
| Corpus.ExtractFailsAtFirst | api/create_vector_store.py:29-33 | a failing comprehension reports the error of the first record, in list order, that raises |
| Corpus.ExtractSelects | api/create_vector_store.py:29-33 | a successful comprehension yields, in increasing position order, one text for each kept record and none for any other, each rendered in the format |
| Corpus.SelectsKeptTake | api/create_vector_store.py:29-33 | a kept record extends the selection of the records after it |
| Corpus.SelectsKeptSkip | api/create_vector_store.py:29-33 | a dropped record leaves the selection of the records after it unchanged |
| Corpus.RenderedTake | api/create_vector_store.py:29-33 | a kept record's text goes in front of the texts of the records after it |
| Corpus.LoadTextsSpec | api/create_vector_store.py:24-36 | a successful load is exactly the kept records in their original order, rendered in the format the first record announces |
| Embedding.EmbedTexts | api/create_vector_store.py:53-58 | the loop over `range(0, len(texts), 16)` appends the encoder's output for each batch, so the list is the concatenation, in batch order, of the encodings of `Batches(texts)` |
| Embedding.BatchesShape | api/create_vector_store.py:55-56 | every batch is non-empty and at most 16 long, there are ceil(n/16) batches, and their concatenation is the text list |
| Embedding.BatchAt | api/create_vector_store.py:55-56 | batch k is the slice `texts[16k : 16k+16]` (clamped at the end) |
| Embedding.EncodedPositions | api/create_vector_store.py:55-58 | with one vector per input, the embeddings list is as long as the texts and its i-th entry is entry i mod 16 of the encoding of batch i div 16 |
| Embedding.PairedWithOwnVector | api/create_vector_store.py:53-64 | with an encoder that embeds each text on its own, pair i of `zip(texts, embeddings)` is text i with its own embedding, for every i, and there are as many pairs as texts |
| Embedding.EmbeddedAt | api/create_vector_store.py:53-58 | with an encoder that embeds each text on its own, the accumulated list is as long as the texts and its i-th vector is the embedding of text i |
| Embedding.Zip | api/create_vector_store.py:64 | `zip` stops at the shorter list and pairs elements by position |
| VectorStore.IndexEntries | api/create_vector_store.py:23-64 | the script either fails with the error of the text selection or yields the texts zipped with their batched encodings |
| VectorStore.IndexCoversTexts | api/create_vector_store.py:53-64 | with one vector per input, every selected text enters the index exactly once, in order, beside the vector at its position, and there are no more entries than records |
| Ask.AskRag | api/main.py:56-112 | the handler refuses with exactly "Consulta vazia" iff the question is all white space; otherwise it echoes the stripped question (no white space at either end), searches with k = 5, reports as many documents and snippets as retrieved, each snippet is the document's prefix of length min(250, len), the answer is the stripped completion or the error prefix followed by the failure message, and the system info is fixed |
| Ask.RejectionCallsNothing | api/main.py:62-64 | an empty question gets the same refusal whatever the search and completion services would do |
| Ask.ServicesConsultedOnce | api/main.py:62-99 | the response depends on the search only through its result for the stripped question and k = 5, and on the completion service only through its result for the prompt built from that |
| Ask.AtMostFiveDocuments | api/main.py:67-106 | a search that returns at most k results makes the handler report at most 5 documents |
| Ask.PromptHoldsDocument | api/main.py:68-87 | the prompt holds each retrieved document's text at its offset in the blank-line-joined context |
| Ask.PromptHoldsQuestion | api/main.py:71-87 | the prompt holds the stripped question after the context |
| Text.Strip | api/main.py:62 | `strip()` yields the empty string exactly when the input is all white space, and a non-empty result neither starts nor ends with white space |
| Text.StripIsSlice | api/main.py:62 | `strip()` yields a contiguous slice of the input, and only white space is cut off at either end |
| Text.ContainsAt | api/create_vector_store.py:27-31 | an occurrence of the needle at any position makes Python's `in` on strings true |
| Text.ContainsOccurs | api/create_vector_store.py:27-31 | Python's `in` on strings is true only when the needle occurs at some position |
| Text.StripIdempotent | api/main.py:62 | stripping a stripped string changes nothing |
| Text.TrimStartSpec | api/main.py:62 | cutting leading white space leaves a suffix that does not start with white space |
| Text.TrimEndSpec | api/main.py:62 | cutting trailing white space leaves a prefix that does not end with white space |
| Text.Blank | api/create_vector_store.py:29 | the filter `item.get('texto', '').strip()` is false exactly when the text is all white space |
| Text.Prefix | api/main.py:105 | `s[:250]` is a prefix of `s`, of length 250 or all of `s` |
| Text.JoinPiece | api/main.py:68 | `"\n\n".join` places each piece at the sum of the earlier pieces' lengths plus one separator per earlier piece |
| Text.JoinSeparators | api/main.py:68 | each piece but the last is followed by the separator, and the last piece ends the joined string |
| Text.SeparatorAfter | api/main.py:68 | in `"\n\n".join`, the separator follows every piece that has another piece after it |
| Text.LastPieceEnds | api/main.py:68 | the last piece ends the joined string |
| Text.OffsetIncreasing | api/main.py:68 | the pieces appear in list order without overlapping |

## Left out

- File discovery and JSON decoding (api/create_vector_store.py:8-21), including the `FileNotFoundError`. The model starts from the decoded value.
- JSON numbers are `real` values, so `1` and `1.0` are the same value. Python's int/float distinction does not affect any check the selection makes. It does change the rendered text of a titled record whose `titulo` is a number (`"1. ..."` against `"1.0. ..."`), which `pyStr` cannot tell apart here.
- Text is a sequence of Unicode scalar values. A Python `str` can also hold a lone surrogate (for example from the JSON escape `"\ud800"`), which this model cannot represent.
- Python's `str()` of a non-string `titulo` (a number, a list, ...) is the parameter `pyStr`. The interpreter's formatting of such values is not modelled.
- Loading the sentence-transformer model, the CUDA patch and the encoding itself (api/create_vector_store.py:41-49, 57). The encoder is a parameter over an abstract vector type, so its floating-point output is not modelled.
- `np.array(embeddings)` (line 60). The embeddings stay a sequence. A list of vectors of unequal lengths, which numpy would reject or turn into an object array, is not modelled.
- Building, saving and loading the FAISS index (api/create_vector_store.py:65-66, api/main.py:39-40). The similarity search is a parameter. That the handler reports at most as many documents as are indexed depends on FAISS and is not stated.
- Environment and API-key loading, the embedding wrapper class, FastAPI and pydantic wiring (api/main.py:1-54). The static `/` and `/health` payloads (api/main.py:114-134) are constant data.
- Exceptions from `similarity_search` (api/main.py:67, outside the `try`) and from `embedder.encode` (api/create_vector_store.py:57) propagate in the source. Here both services are total functions, so a failure of either is not modelled.
- The completion call's parameters (model, temperature 0.2, max_tokens 800). The remote service is only its outcome, `Completed` or `Raised`.
- frontend/app_streamlit.py: a UI and HTTP client with no logic of its own.
- Progress bars and `print` logging: output only.
- Ask.AtMostFiveDocuments: this holds only for a search that honours its `k`. That is an assumption about FAISS, not something the handler checks.
