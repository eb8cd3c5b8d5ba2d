/** Knowledge-base ingestion: token-window chunking and storing one file's chunks. */
module Ingest {
  import opened Wrappers
  import opened Text

  /** `chunk_size` and `chunk_overlap` when the configuration does not set them. */
  const DefaultChunkSize := 500
  const DefaultChunkOverlap := 50

  /**
   * The token windows starting at `i`, `i + step`, ... below `|tokens|`;
   * each is `tokens[start : start + size]`, cut short at the end.
   */
  function Windows<T>(tokens: seq<T>, i: nat, size: nat, step: nat): seq<seq<T>>
    requires step > 0
    decreases |tokens| - i
  {
    if i >= |tokens| then []
    else [tokens[i..Min(i + size, |tokens|)]] + Windows(tokens, i + step, size, step)
  }

  /** Window `k` starts at `i + k * step` and holds at most `size` tokens. */
  lemma {:induction false} WindowAt<T>(tokens: seq<T>, i: nat, size: nat, step: nat, k: nat)
    requires step > 0 && k < |Windows(tokens, i, size, step)|
    ensures i + k * step < |tokens|
    ensures Windows(tokens, i, size, step)[k] == tokens[i + k * step..Min(i + k * step + size, |tokens|)]
    decreases k
  {
    if k > 0 {
      WindowAt(tokens, i + step, size, step, k - 1);
      assert i + step + (k - 1) * step == i + k * step;
    }
  }

  /**
   * There are ceil((|tokens| - i) / step) windows: the fewest whose starts
   * reach the end. For empty input there are none.
   */
  lemma {:induction false} WindowCount<T>(tokens: seq<T>, i: nat, size: nat, step: nat)
    requires step > 0 && i <= |tokens|
    ensures var c := |Windows(tokens, i, size, step)|;
      c * step >= |tokens| - i && (c == 0 <==> i == |tokens|) && (c > 0 ==> (c - 1) * step < |tokens| - i)
    decreases |tokens| - i
  {
    var n := |tokens|;
    if i < n {
      var c := |Windows(tokens, i, size, step)|;
      if i + step <= n {
        WindowCount(tokens, i + step, size, step);
      }
      var c' := |Windows(tokens, i + step, size, step)|;
      assert c == c' + 1;
      assert c * step == c' * step + step;
    }
  }

  /**
   * With `0 <= overlap` (step at most size), consecutive windows share their
   * tokens: what window k holds beyond its first `step` tokens starts window k + 1.
   */
  lemma ConsecutiveWindowsOverlap<T>(tokens: seq<T>, size: nat, step: nat, k: nat)
    requires 0 < step <= size && k + 1 < |Windows(tokens, 0, size, step)|
    ensures var w := Windows(tokens, 0, size, step);
      |w[k]| >= step && w[k][step..] <= w[k + 1]
    ensures var w := Windows(tokens, 0, size, step);
      |w[k][step..]| == Min(size - step, |tokens| - (k + 1) * step)
  {
    WindowAt(tokens, 0, size, step, k);
    WindowAt(tokens, 0, size, step, k + 1);
    assert (k + 1) * step == k * step + step;
    SlicesOverlap(tokens, size, step, k * step);
  }

  /** The windows starting at `a` and `a + step` share what the first holds beyond `step`. */
  lemma SlicesOverlap<T>(tokens: seq<T>, size: nat, step: nat, a: nat)
    requires 0 < step <= size && a + step < |tokens|
    ensures var x, y := tokens[a..Min(a + size, |tokens|)], tokens[a + step..Min(a + step + size, |tokens|)];
      |x| >= step && x[step..] <= y && |x[step..]| == Min(size - step, |tokens| - (a + step))
  {
    var n := |tokens|;
    var x := tokens[a..Min(a + size, n)];
    assert x[step..] == tokens[a + step..Min(a + size, n)];
  }

  /**
   * With `0 <= overlap`, every token lies in some window: the token at
   * `k * step + p`, with `p < step`, is at position `p` of window `k`.
   */
  lemma TokenCovered<T>(tokens: seq<T>, size: nat, step: nat, k: nat, p: nat)
    requires 0 < step <= size && p < step && k * step + p < |tokens|
    ensures k < |Windows(tokens, 0, size, step)|
    ensures p < |Windows(tokens, 0, size, step)[k]|
    ensures Windows(tokens, 0, size, step)[k][p] == tokens[k * step + p]
  {
    var c := |Windows(tokens, 0, size, step)|;
    WindowCount(tokens, 0, size, step);
    if c <= k {
      MulMonotone(c, k, step);
      assert false;
    }
    WindowAt(tokens, 0, size, step, k);
  }

  lemma MulMonotone(a: nat, b: nat, m: nat)
    requires a <= b
    ensures a * m <= b * m
  {
  }

  /** Each token index `j` is `(j / step) * step + j % step`, so TokenCovered reaches every token. */
  lemma EveryTokenCovered<T>(tokens: seq<T>, size: nat, step: nat, j: nat)
    requires 0 < step <= size && j < |tokens|
    ensures var w := Windows(tokens, 0, size, step);
      j / step < |w| && j % step < |w[j / step]| && w[j / step][j % step] == tokens[j]
  {
    var k, p := j / step, j % step;
    DivMod(j, step);
    TokenCovered(tokens, size, step, k, p);
  }

  lemma DivMod(j: nat, step: nat)
    requires step > 0
    ensures (j / step) * step + j % step == j && j % step < step
  {
  }

  /** What `chunk_text` returns for the token sequence: `range` rejects a zero step and is empty for a negative one. */
  function Chunking<T>(tokens: seq<T>, size: nat, overlap: int, decode: seq<T> -> string): Result<seq<string>> {
    var step := size - overlap;
    if step == 0 then Err("range() arg 3 must not be zero")
    else if step < 0 then Ok([])
    else
      var w := Windows(tokens, 0, size, step);
      Ok(seq(|w|, k requires 0 <= k < |w| => decode(w[k])))
  }

  /**
   * `chunk_text` over the tokens the tokenizer produced: window `k` starts at
   * `k * (size - overlap)`, and each window is decoded back to text.
   */
  method ChunkText<T>(tokens: seq<T>, size: nat, overlap: int, decode: seq<T> -> string) returns (chunks: Result<seq<string>>)
    ensures chunks == Chunking(tokens, size, overlap, decode)
  {
    var step := size - overlap;
    if step == 0 {
      return Err("range() arg 3 must not be zero");
    }
    if step < 0 {
      return Ok([]);
    }
    var out: seq<string> := [];
    var i: nat := 0;
    ghost var done: seq<seq<T>> := [];
    while i < |tokens|
      invariant done + Windows(tokens, i, size, step) == Windows(tokens, 0, size, step)
      invariant |out| == |done| && forall k :: 0 <= k < |done| ==> out[k] == decode(done[k])
    {
      var window := tokens[i..Min(i + size, |tokens|)];
      ghost var rest := Windows(tokens, i + step, size, step);
      assert Windows(tokens, i, size, step) == [window] + rest;
      assert done + [window] + rest == done + ([window] + rest);
      out := out + [decode(window)];
      done := done + [window];
      i := i + step;
    }
    assert Windows(tokens, i, size, step) == [];
    assert done == Windows(tokens, 0, size, step);
    assert out == seq(|done|, k requires 0 <= k < |done| => decode(done[k]));
    chunks := Ok(out);
  }

  /**
   * The chunks `chunk_text` returns for a positive step: ceil(n / step) of
   * them (none for empty input), chunk k being the decoded tokens
   * `[k * step, min(k * step + size, n))`.
   */
  lemma ChunkingShape<T>(tokens: seq<T>, size: nat, overlap: int, decode: seq<T> -> string, k: nat)
    requires size - overlap > 0
    ensures Chunking(tokens, size, overlap, decode).Ok?
    ensures var c := |Chunking(tokens, size, overlap, decode).value|;
      && c * (size - overlap) >= |tokens|
      && (c == 0 <==> |tokens| == 0)
      && (c > 0 ==> (c - 1) * (size - overlap) < |tokens|)
    ensures k < |Chunking(tokens, size, overlap, decode).value| ==>
      && k * (size - overlap) < |tokens|
      && Chunking(tokens, size, overlap, decode).value[k]
         == decode(tokens[k * (size - overlap)..Min(k * (size - overlap) + size, |tokens|)])
  {
    var step := size - overlap;
    WindowCount(tokens, 0, size, step);
    if k < |Windows(tokens, 0, size, step)| {
      WindowAt(tokens, 0, size, step, k);
    }
  }

  /** The metadata stored with each chunk. */
  datatype ChunkMetadata = ChunkMetadata(source: string, chunkIndex: nat)

  /** One `add_document_to_rag` call. */
  datatype StoredChunk = StoredChunk(content: string, embedding: seq<real>, metadata: ChunkMetadata)

  /**
   * `ingest_file` after the file's text has been read: nothing is stored for
   * text that is empty after stripping, nor when the tokenizer rejects the
   * text (a special token such as `<|endoftext|>` makes `encode` raise);
   * otherwise chunk k is stored with `chunk_index = k`, until an embedding
   * fails, which ends the file.
   */
  method IngestFile<T>(fileName: string, content: string, encode: string -> Result<seq<T>>, decode: seq<T> -> string,
                       size: nat, overlap: int, embed: string -> Result<seq<real>>)
    returns (stored: seq<StoredChunk>)
    ensures Strip(content) == "" ==> stored == []
    ensures encode(content).Err? ==> stored == []
    ensures encode(content).Ok? && Chunking(encode(content).value, size, overlap, decode).Err? ==> stored == []
    ensures Strip(content) != "" && encode(content).Ok? && Chunking(encode(content).value, size, overlap, decode).Ok? ==>
      var chunks := Chunking(encode(content).value, size, overlap, decode).value;
      && |stored| <= |chunks|
      && (forall k :: 0 <= k < |stored| ==>
            embed(chunks[k]).Ok? && stored[k] == StoredChunk(chunks[k], embed(chunks[k]).value, ChunkMetadata(fileName, k)))
      && (|stored| < |chunks| ==> embed(chunks[|stored|]).Err?)
  {
    stored := [];
    if Strip(content) == "" {
      return;
    }
    var tokens := encode(content);
    if tokens.Err? {
      return;
    }
    var result := ChunkText(tokens.value, size, overlap, decode);
    if result.Err? {
      return;
    }
    var chunks := result.value;
    var k := 0;
    while k < |chunks|
      invariant 0 <= k <= |chunks| && |stored| == k
      invariant forall j :: 0 <= j < k ==>
        embed(chunks[j]).Ok? && stored[j] == StoredChunk(chunks[j], embed(chunks[j]).value, ChunkMetadata(fileName, j))
    {
      var embedding := embed(chunks[k]);
      if embedding.Err? {
        return;
      }
      stored := stored + [StoredChunk(chunks[k], embedding.value, ChunkMetadata(fileName, k))];
      k := k + 1;
    }
  }
}
