/** The text side of the retrieval script: fixed-size chunking of the
    knowledge file's content, assembly of the context from the chunks at
    the indices the nearest-neighbour search returned, and the prompt
    given to the local model. Reading the file, the embeddings and the
    search are outside this module; their results are inputs here. */
module Retrieval {
  import opened Wrappers
  import PyText

  /** The default `chunk_size` of `load_and_chunk`. */
  const DefaultChunkSize: int := 512

  /** Python exceptions the modelled lines can raise. */
  datatype PyError = ValueError | IndexError

  function Min(a: int, b: int): int { if a <= b then a else b }

  /** Python's `s[lo:hi]` for non-negative bounds: both are clamped to the
      length, and an empty window gives "". */
  function PySlice(s: string, lo: nat, hi: nat): (r: string)
    ensures lo <= hi <= |s| ==> r == s[lo..hi]
    ensures lo <= |s| && lo <= hi ==> r == s[lo..Min(hi, |s|)]
    ensures |s| <= lo ==> r == ""
    ensures hi <= lo ==> r == ""
  {
    var a := Min(lo, |s|);
    var b := Min(hi, |s|);
    if a <= b then s[a..b] else ""
  }

  /** `len(range(0, n, size))`: how many window starts 0, size, 2*size, ...
      lie below `n`. */
  function ChunkCount(n: nat, size: nat): (c: nat)
    requires size > 0
    ensures c == 0 <==> n == 0
    ensures c <= n
    decreases n
  {
    if n == 0 then 0 else if n <= size then 1 else 1 + ChunkCount(n - size, size)
  }

  /** The chunk count is the ceiling of n / size. */
  lemma ChunkCountIsCeiling(n: nat, size: nat)
    requires size > 0
    ensures var c := ChunkCount(n, size);
      n <= c * size && (c == 0 || (c - 1) * size < n)
  {
    var c := ChunkCount(n, size);
    ChunkCountCovers(n, size);
    WindowStartIsProduct(c, size);
    if c > 0 {
      WindowStartIsProduct(c - 1, size);
    }
  }

  lemma {:induction false} ChunkCountCovers(n: nat, size: nat)
    requires size > 0
    ensures var c := ChunkCount(n, size);
      n <= WindowStart(c, size) && (c == 0 || WindowStart(c - 1, size) < n)
    decreases n
  {
    if n > size {
      ChunkCountCovers(n - size, size);
    }
  }

  // MulSucc states one fact of multiplication on its own, so that the
  // proofs relating window starts to `k * size` stay stable across solver
  // seeds; it is a proof aid, not a statement about the chunker.
  lemma MulSucc(k: nat, size: nat)
    ensures 0 <= k * size
    ensures (k + 1) * size == k * size + size
  {
  }

  /** `[content[i:i+size] for i in range(0, len(content), size)]`, built
      window by window in the same shape as `ChunkCount`: the first window,
      then the chunks of what follows it. `ChunkAt` and `ChunksAsWindows`
      tie it back to the comprehension. */
  function Chunks(content: string, size: nat): (chunks: seq<string>)
    requires size > 0
    ensures |chunks| == ChunkCount(|content|, size)
    ensures forall k :: 0 <= k < |chunks| ==> 0 < |chunks[k]| <= size
    ensures forall k :: 0 <= k < |chunks| - 1 ==> |chunks[k]| == size
    decreases |content|
  {
    if |content| == 0 then []
    else if |content| <= size then [content]
    else
      var tail := Chunks(content[size..], size);
      assert forall k :: 1 <= k < 1 + |tail| ==> ([content[..size]] + tail)[k] == tail[k - 1];
      [content[..size]] + tail
  }

  /** Where window k starts, counted by steps of `size`: the linear
      counterpart of `k * size` that the window proofs induct over. */
  function WindowStart(k: nat, size: nat): nat
  {
    if k == 0 then 0 else WindowStart(k - 1, size) + size
  }

  lemma {:induction false} WindowStartIsProduct(k: nat, size: nat)
    ensures WindowStart(k, size) == k * size
  {
    if k > 0 {
      WindowStartIsProduct(k - 1, size);
      MulSucc(k - 1, size);
    }
  }

  lemma WindowStep(k: nat, size: nat, n: nat, r: nat)
    requires 0 < k && r + size == n
    ensures WindowStart(k, size) == size + WindowStart(k - 1, size)
    ensures Min(WindowStart(k, size) + size, n) == size + Min(WindowStart(k - 1, size) + size, r)
  {
  }

  lemma SliceOfDrop(s: string, m: nat, a: nat, b: nat)
    requires m <= |s| && a <= b <= |s| - m
    ensures s[m..][a..b] == s[m + a .. m + b]
  {
  }

  /** Chunk k > 0 of the content is chunk k - 1 of what follows the
      first window. */
  lemma ChunksStep(content: string, size: nat, k: nat)
    requires size > 0 && 0 < k < ChunkCount(|content|, size)
    ensures |content| > size
    ensures k - 1 < ChunkCount(|content| - size, size)
    ensures Chunks(content, size)[k] == Chunks(content[size..], size)[k - 1]
  {
  }

  /** Chunk k is the window of at most `size` characters starting at
      window start k, which lies inside the content. */
  lemma {:induction false} ChunkAtStart(content: string, size: nat, k: nat)
    requires size > 0 && k < ChunkCount(|content|, size)
    ensures WindowStart(k, size) < |content|
    ensures Chunks(content, size)[k] == content[WindowStart(k, size) .. Min(WindowStart(k, size) + size, |content|)]
    decreases k
  {
    if k == 0 {
      assert Chunks(content, size)[0] == content[..Min(size, |content|)];
    } else {
      ChunksStep(content, size, k);
      ChunkAtStart(content[size..], size, k - 1);
      ChunkAtNext(content, size, k);
    }
  }

  /** The inductive step of `ChunkAtStart`: the window of chunk k - 1 in
      the remainder, shifted by one window, is the window of chunk k. */
  lemma ChunkAtNext(content: string, size: nat, k: nat)
    requires 0 < size < |content| && 0 < k < ChunkCount(|content|, size)
    requires Chunks(content, size)[k] == Chunks(content[size..], size)[k - 1]
    requires WindowStart(k - 1, size) < |content[size..]|
    requires Chunks(content[size..], size)[k - 1]
      == content[size..][WindowStart(k - 1, size) .. Min(WindowStart(k - 1, size) + size, |content[size..]|)]
    ensures WindowStart(k, size) < |content|
    ensures Chunks(content, size)[k] == content[WindowStart(k, size) .. Min(WindowStart(k, size) + size, |content|)]
  {
    var rest := content[size..];
    WindowStep(k, size, |content|, |rest|);
    SliceOfDrop(content, size, WindowStart(k - 1, size), Min(WindowStart(k - 1, size) + size, |rest|));
  }

  /** Chunk k is the comprehension's k-th element: the window starting at
      k*size, which lies inside the content. */
  lemma ChunkAt(content: string, size: nat, k: nat)
    requires size > 0 && k < ChunkCount(|content|, size)
    ensures k * size < |content|
    ensures Chunks(content, size)[k] == PySlice(content, k * size, k * size + size)
    ensures Chunks(content, size)[k] == content[k * size .. Min(k * size + size, |content|)]
  {
    WindowStartIsProduct(k, size);
    ChunkWindow(content, size, k, k * size);
  }

  lemma ChunkWindow(content: string, size: nat, k: nat, start: nat)
    requires size > 0 && k < ChunkCount(|content|, size) && start == WindowStart(k, size)
    ensures start < |content|
    ensures Chunks(content, size)[k] == PySlice(content, start, start + size)
    ensures Chunks(content, size)[k] == content[start .. Min(start + size, |content|)]
  {
    ChunkAtStart(content, size, k);
  }

  /** The chunk list equals the comprehension, element for element. */
  lemma ChunksAsWindows(content: string, size: nat)
    requires size > 0
    ensures var count := ChunkCount(|content|, size);
      Chunks(content, size) == seq(count, k requires 0 <= k < count => PySlice(content, k * size, k * size + size))
  {
    var count := ChunkCount(|content|, size);
    var windows := seq(count, k requires 0 <= k < count => PySlice(content, k * size, k * size + size));
    forall k | 0 <= k < count
      ensures Chunks(content, size)[k] == windows[k]
    {
      ChunkAt(content, size, k);
    }
    assert Chunks(content, size) == windows;
  }

  /** Concatenating all chunks reproduces the content exactly. */
  lemma {:induction false} ChunksConcat(content: string, size: nat)
    requires size > 0
    ensures PyText.Concat(Chunks(content, size)) == content
    decreases |content|
  {
    if |content| > size {
      ChunksConcat(content[size..], size);
      assert content == content[..size] + content[size..];
    }
  }

  /** `load_and_chunk` after the file read. A zero step makes `range`
      raise ValueError; a negative step gives an empty range. */
  function LoadAndChunk(content: string, chunkSize: int := DefaultChunkSize): (r: Result<seq<string>, PyError>)
    ensures r.Err? <==> chunkSize == 0
    ensures r.Err? ==> r.error == ValueError
    ensures chunkSize < 0 ==> r == Ok([])
    ensures chunkSize > 0 ==> r == Ok(Chunks(content, chunkSize))
    ensures chunkSize > 0 ==> r.Ok? && PyText.Concat(r.value) == content
    ensures chunkSize > 0 ==> forall k :: 0 <= k < |r.value| ==> 0 < |r.value[k]| <= chunkSize
    ensures chunkSize > 0 ==> (r.value == [] <==> content == "")
  {
    if chunkSize == 0 then Err(ValueError)
    else if chunkSize < 0 then Ok([])
    else
      ChunksConcat(content, chunkSize);
      ChunkCountIsCeiling(|content|, chunkSize);
      Ok(Chunks(content, chunkSize))
  }

  /** Whether `i` is a valid Python list index for a list of length n
      (negative indices count from the end). */
  predicate ValidIndex(n: nat, i: int) {
    -(n as int) <= i < n
  }

  function Normalize(n: nat, i: int): (j: nat)
    requires ValidIndex(n, i)
    ensures j < n
    ensures j == i % (n as int)
  {
    if i >= 0 then i else n + i
  }

  /** `[chunks[i] for i in ids]`: IndexError at the first out-of-range
      index. */
  function Gather(chunks: seq<string>, ids: seq<int>): (r: Result<seq<string>, PyError>)
    ensures r.Ok? <==> forall k :: 0 <= k < |ids| ==> ValidIndex(|chunks|, ids[k])
    ensures r.Err? ==> r.error == IndexError
    ensures r.Ok? ==> |r.value| == |ids|
    ensures r.Ok? ==> forall k :: 0 <= k < |ids| ==>
      (ValidIndex(|chunks|, ids[k]) && r.value[k] == chunks[Normalize(|chunks|, ids[k])])
  {
    if ids == [] then Ok([])
    else if !ValidIndex(|chunks|, ids[0]) then Err(IndexError)
    else
      match Gather(chunks, ids[1..])
      case Err(e) => Err(e)
      case Ok(rest) => Ok([chunks[Normalize(|chunks|, ids[0])]] + rest)
  }

  /** `" ".join([chunks[i] for i in ids])`. */
  function Context(chunks: seq<string>, ids: seq<int>): (r: Result<string, PyError>)
    ensures r.Ok? <==> forall k :: 0 <= k < |ids| ==> ValidIndex(|chunks|, ids[k])
    ensures r.Err? ==> r.error == IndexError
  {
    match Gather(chunks, ids)
    case Err(e) => Err(e)
    case Ok(selected) => Ok(PyText.Join(" ", selected))
  }

  /** No index gives an empty context; one index gives its chunk alone. */
  lemma ContextSingle(chunks: seq<string>, i: int)
    requires ValidIndex(|chunks|, i)
    ensures Context(chunks, []) == Ok("")
    ensures Context(chunks, [i]) == Ok(chunks[Normalize(|chunks|, i)])
  {
  }

  /** The context of a list of indices is the context of a prefix, one
      space, and the context of the rest: chunks appear in index order,
      separated by single spaces. */
  lemma ContextSplitAt(chunks: seq<string>, ids: seq<int>, k: nat)
    requires forall j :: 0 <= j < |ids| ==> ValidIndex(|chunks|, ids[j])
    requires 0 < k < |ids|
    ensures Context(chunks, ids).Ok? && Context(chunks, ids[..k]).Ok? && Context(chunks, ids[k..]).Ok?
    ensures Context(chunks, ids).value ==
      Context(chunks, ids[..k]).value + " " + Context(chunks, ids[k..]).value
  {
    var all := Gather(chunks, ids).value;
    assert Gather(chunks, ids[..k]).value == all[..k];
    assert Gather(chunks, ids[k..]).value == all[k..];
    PyText.JoinSplitAt(" ", all, k);
  }

  /** The context's length: every selected chunk plus one space between
      neighbours. */
  lemma ContextLength(chunks: seq<string>, ids: seq<int>)
    requires forall j :: 0 <= j < |ids| ==> ValidIndex(|chunks|, ids[j])
    requires |ids| > 0
    ensures |Context(chunks, ids).value| + 1 == |PyText.Concat(Gather(chunks, ids).value)| + |ids|
  {
  }

  /** The f-string "Context: {context}\nQuestion: {query}\nAnswer:". */
  function FormatPrompt(context: string, query: string): (p: string)
    ensures |p| == |context| + |query| + 28
    ensures p[..9] == "Context: "
    ensures p[9..9 + |context|] == context
    ensures p[9 + |context|..20 + |context|] == "\nQuestion: "
    ensures p[20 + |context|..20 + |context| + |query|] == query
    ensures p[|p| - 8..] == "\nAnswer:"
  {
    "Context: " + context + "\nQuestion: " + query + "\nAnswer:"
  }

  /** Knowing the context's length, the prompt gives back both the context
      and the question. */
  lemma FormatPromptInjective(c1: string, q1: string, c2: string, q2: string)
    requires |c1| == |c2| && FormatPrompt(c1, q1) == FormatPrompt(c2, q2)
    ensures c1 == c2 && q1 == q2
  {
  }

  /** The prompt the `/chat` route hands to the local model for `query`,
      given the indices the search returned. */
  function QueryPrompt(chunks: seq<string>, ids: seq<int>, query: string): (r: Result<string, PyError>)
    ensures r.Ok? <==> forall k :: 0 <= k < |ids| ==> ValidIndex(|chunks|, ids[k])
    ensures r.Ok? ==> r.value == FormatPrompt(Context(chunks, ids).value, query)
  {
    match Context(chunks, ids)
    case Err(e) => Err(e)
    case Ok(context) => Ok(FormatPrompt(context, query))
  }
}
