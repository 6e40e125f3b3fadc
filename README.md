# Company chatbot: conversation history and retrieval text handling

This project models, in Dafny, the parts of the company chatbot that carry
logic of their own:

- the chat page (`app.py`): one session's message history, seeded with the
  system prompt, grown by each chat turn, cleared by "Clear Chat History";
  the request payload sent to the hosted completion endpoint; the filter
  that hides the system prompt from the page; and the word-by-word "typing"
  text built from a reply;
- the retrieval script (`test.py`): cutting the knowledge file's content
  into fixed-size chunks, joining the chunks at the retrieved indices into a
  context, and formatting the prompt for the local model.

Modules:

- `Wrappers` (`wrappers.dfy`): `Option` (Python's `None`) and `Result`
  (a value or a raised Python exception).
- `PyText` (`pytext.dfy`): the Python built-ins the code relies on:
  `str.split()` with no argument (`Split`, with `IsSpace` the whitespace set
  `str.isspace` uses), `sep.join(parts)` (`Join`) and list concatenation
  (`Concat`).
- `Chat` (`chat.dfy`): the session as a class `Session` whose field
  `messages` is `st.session_state.messages`; methods `Init`, `UserTurn` and
  `Reset` change it in place as the page script does. The page script runs
  again on every interaction and re-reads the company file each time, so
  `Init` and `Reset` take the system prompt of the current run as a
  parameter rather than fixing it per session. The history after a
  sequence of turns and clears is also given as a function (`Step`, `Run`)
  so that the invariant can be proved for every sequence of events. The
  completion call is an input: its answer is `Some(reply)` or `None`.
- `Retrieval` (`retrieval.dfy`): pure functions over strings: `Chunks`
  (the list comprehension of `load_and_chunk`, built window by window and
  proved equal to the comprehension), `LoadAndChunk` (with the errors of
  `range`), `Context` (the join over retrieved indices) and `FormatPrompt`.

Behaviour of the code as written that the model keeps and proves:

- A turn whose endpoint answer is `None` or `""` still adds the user's
  message: the history grows by one message, not zero (app.py:80 appends
  the user message before the call at app.py:92).
- The payload sent to the endpoint is the history, which already ends with
  the user's prompt, plus the prompt once more; its last two messages are
  identical.
- The chunker cuts windows of characters (code points), not bytes.
- Python list indexing is modelled as written: a negative index counts
  from the end and an index outside `-len <= i < len` raises `IndexError`.
- A `chunk_size` of 0 makes `range` raise `ValueError`; a negative one gives
  an empty `range` and so no chunks.

## Model

| member | source | states |
|---|---|---|
| `Chat.Truthy` | app.py:94-104 | an answer counts as a reply exactly when it is neither `None` nor the empty string |
| `Chat.BuildPayload` | app.py:43-53 | the payload carries the given model and `max_tokens` (default 1000), and its messages are the history followed by one user message holding the prompt |
| `Chat.PayloadRepeatsPrompt` | app.py:49-53 | when the history already ends with the user's prompt, the payload's last two messages are that same user message and `max_tokens` is 1000 |
| `Chat.Step` | app.py:78-113 | a turn keeps the old history as a prefix and adds at most two messages, the first of them the user's message whenever the input is non-empty; a clear leaves one system message holding the clear's prompt |
| `Chat.Run` | app.py:78-113 | a sequence made only of turns never removes or changes a message (the old history stays a prefix), and a non-empty history stays non-empty |
| `Chat.StepKeepsWellFormed` | app.py:78-113 | a turn or a clear keeps the invariant: system message first, then only user/assistant messages, each assistant message right after a user message |
| `Chat.RunKeepsWellFormed` | app.py:78-113 | after any sequence of turns and clears, element 0 is the system message and no later message has the system role |
| `Chat.RunSystemMessage` | app.py:39-113 | after any sequence of events the first message is the system message with the prompt of the last clear, or the original one when nothing was cleared |
| `Chat.ClearIdempotent` | app.py:112-113 | clearing gives the single system message whatever the history was, and clearing twice equals clearing once |
| `Chat.Displayed` | app.py:72-75 | no shown message has the system role |
| `Chat.DisplayedMembers` | app.py:72-75 | every shown message is a history message, and every non-system history message is shown |
| `Chat.DisplayedAppend` | app.py:72-73 | the filter commutes with concatenation, so shown messages keep history order |
| `Chat.DisplayedWellFormed` | app.py:72-73 | on a well-formed history the page shows exactly the history without its first message |
| `Chat.Typed` | app.py:96-97 | the typed text's length is the words' total length plus one space per word |
| `Chat.TypedAppend` | app.py:96-97 | adding a word to the typed text appends the word and one space |
| `Chat.TypedText` | app.py:96-97 | splitting the typed text again gives exactly the reply's words: the typing effect changes only the whitespace |
| `Chat.SplitTyped` | app.py:96-97 | for any list of words, splitting the text of each word followed by one space gives the list back |
| `Chat.TypeOut` | app.py:89-100 | the typing loop yields, for a truthy reply, the concatenation of each split word plus one space, and "" for a falsy answer |
| `Chat.TypedTextEmpty` | app.py:94-97 | the typed text is empty exactly when the reply is all whitespace (has no words) |
| `Chat.TypedTextEndsWithOneSpace` | app.py:96-97 | a reply with words gives a text that ends in a space preceded by a non-whitespace character |
| `Chat.Session.constructor` | app.py:39 | a new session has no "messages" entry yet |
| `Chat.Session.Init` | app.py:39-40 | a session without history gets exactly the one system message with this run's prompt; one that has a history keeps it unchanged |
| `Chat.Session.UserTurn` | app.py:78-105 | an empty input changes nothing; otherwise the user message is appended, the reply too only if truthy (two messages on success, one on failure), the sent payload ends with the prompt twice, the first message is untouched, and the invariant is kept |
| `Chat.Session.Reset` | app.py:112-113 | the history becomes the single system message with this run's prompt, whatever it was before |
| `Chat.Session.Visible` | app.py:72-75 | the page shows the session's history without its first (system) message |
| `PyText.IsSpace` | app.py:96 | among ASCII characters, whitespace is exactly tab, line feed, vertical tab, form feed, carriage return, the separators 0x1C-0x1F and space |
| `PyText.WordLength` | app.py:96 | the leading run of non-whitespace characters ends at the first whitespace character or at the end |
| `PyText.Split` | app.py:96 | every word is non-empty and whitespace-free, and there are no words exactly when the text is all whitespace |
| `PyText.SplitKeepsText` | app.py:96 | the words, concatenated, are exactly the non-whitespace characters of the text |
| `PyText.SplitWordThen` | app.py:96 | a word followed by whitespace, or by nothing, is split off whole as the first word |
| `PyText.SplitWord` | app.py:96 | a single word splits into itself |
| `PyText.SplitAtSpace` | app.py:96 | every whitespace character is a word boundary: split(a + c + b) is split(a) followed by split(b) |
| `PyText.Join` | test.py:42 | the join of a non-empty list is as long as all parts plus one separator between each pair of neighbours |
| `PyText.JoinSplitAt` | test.py:42 | the join of a list is the join of any non-empty prefix, the separator, and the join of the rest |
| `Retrieval.PySlice` | test.py:12 | a slice inside the string is the Dafny slice; a start inside the string clamps the end to the length; a start at or past the end, or an end at or before the start, gives "" |
| `Retrieval.ChunkCount` | test.py:12 | the number of window starts is 0 exactly for empty content and never exceeds the content's length |
| `Retrieval.ChunkCountIsCeiling` | test.py:12 | the number of windows c satisfies (c-1)*size < n <= c*size, i.e. it is ceil(n/size) |
| `Retrieval.Chunks` | test.py:12 | there are ceil(n/size) chunks, each non-empty and at most `size` long, all but the last exactly `size` long |
| `Retrieval.ChunkAt` | test.py:12 | window start k*size lies inside the content, and chunk k is content[k*size:k*size+size], i.e. content[k*size .. min(k*size+size, n)] |
| `Retrieval.ChunksAsWindows` | test.py:12 | the chunk list equals the comprehension [content[i:i+size] for i in range(0, n, size)] element for element |
| `Retrieval.ChunksConcat` | test.py:12 | concatenating all chunks reproduces the content exactly |
| `Retrieval.LoadAndChunk` | test.py:9-13 | chunk size 0 raises ValueError, a negative size gives no chunks, a positive size gives exactly the chunk list: non-empty chunks of at most that size whose concatenation is the content, none exactly for empty content |
| `Retrieval.Normalize` | test.py:42 | a valid Python index maps to a position inside the list, namely the index modulo the length (negative indices count from the end) |
| `Retrieval.Gather` | test.py:42 | the selection succeeds exactly when every index is valid, raises IndexError otherwise, and holds the chunk at each index in index order |
| `Retrieval.Context` | test.py:42 | the context exists exactly when every index is valid, and IndexError is raised otherwise |
| `Retrieval.ContextSingle` | test.py:42 | no index gives "", one index gives its chunk alone |
| `Retrieval.ContextSplitAt` | test.py:42 | the context of a list of indices is the context of a prefix, one space, and the context of the rest |
| `Retrieval.ContextLength` | test.py:42 | the context is as long as the selected chunks plus one space between neighbours |
| `Retrieval.FormatPrompt` | test.py:45 | the prompt is "Context: ", the context, "\nQuestion: ", the query and "\nAnswer:", in that order |
| `Retrieval.FormatPromptInjective` | test.py:45 | given the context's length, the prompt determines both the context and the query |
| `Retrieval.QueryPrompt` | test.py:41-45 | the route's prompt exists exactly when every retrieved index is valid and is the formatted prompt over the context |

## Left out

- Streamlit rendering (page config, titles, chat bubbles, the cursor
  character, error banners, `st.rerun`) and the `time.sleep` pacing of the
  typing effect: user interface, no state of the model depends on them.
- The HTTP request (`requests.post`, headers, bearer token,
  `raise_for_status`, JSON decoding of the answer): network I/O; its outcome
  is the `Option<string>` input of `UserTurn`.
- Reading `info.txt` and the text of `SYSTEM_PROMPT`: file I/O; the system
  prompt and the file content are opaque string inputs.
- `MODEL_NAME` and the other settings in `config.py`: `config.py` is not
  part of this model; the model name is an input.
- Sentence embeddings, building and searching the FAISS index, the
  tokenizer, `generate`/`decode` and the FastAPI route itself: foreign
  libraries and floating point; the retrieved indices are an input of
  `Context`.
- The padding with -1 that the index search produces when it has fewer than
  five vectors is not modelled; such an index reads as Python's last
  element under the list-indexing rule above.
- The call to `encode` on the causal language model object in the `/chat`
  route: it belongs to the library calls left out above.
- Chat.TypeOut: it gives the final text of the typing effect only, not the
  intermediate frames shown while typing.
