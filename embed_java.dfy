/** Chunking and embedding of Java sources (backend/embed_java_v2.py):
    `chunk_text`, `embed_code` and the pairing in `save_embeddings_json`.

    The tokenizer (`encode`, `decode`, `count_tokens`) and the embedding
    service (`get_embedding` behind its retry decorator) are parameters;
    an embedding call that finally raises is `None`. Nothing is assumed of
    `decode` or of how `encode` and `decode` relate. */
module EmbedJava {
  import opened Wrappers
  import opened SeqUtil

  /** A tokenizer token id. */
  type Token = int

  /** An embedding vector as returned by the service. */
  type Embedding = seq<real>

  /** The `max_tokens` that `embed_code` uses for every snippet. */
  const MaxChunkTokens: int := 7000

  /** Above this count a chunk only triggers a printed warning. */
  const TokenWarningThreshold: nat := 8192

  // ---------------------------------------------------------------------
  // chunk_text

  /** `[tokens[i:i + m] for i in range(0, len(tokens), m)]` for `m > 0`. */
  function TokenChunks(tokens: seq<Token>, m: nat): seq<seq<Token>>
    requires m > 0
    decreases |tokens|
  {
    if tokens == [] then []
    else if |tokens| <= m then [tokens]
    else [tokens[..m]] + TokenChunks(tokens[m..], m)
  }

  /** One step of the chunk loop: a non-empty token list starts with its
      first `min(m, len)` tokens as a chunk. */
  lemma TokenChunksStep(tokens: seq<Token>, m: nat)
    requires m > 0 && tokens != []
    ensures var e := if |tokens| <= m then |tokens| else m;
      TokenChunks(tokens, m) == [tokens[..e]] + TokenChunks(tokens[e..], m)
  {
    if |tokens| <= m {
      assert tokens[..|tokens|] == tokens;
      assert tokens[|tokens|..] == [];
    }
  }

  /** Concatenating the chunks gives back the tokens. */
  lemma {:induction false} ChunksConcatenate(tokens: seq<Token>, m: nat)
    requires m > 0
    ensures Flatten(TokenChunks(tokens, m)) == tokens
    decreases |tokens|
  {
    if tokens == [] {
    } else if |tokens| <= m {
      FlattenCons(tokens, []);
      assert tokens + [] == tokens;
    } else {
      ChunksConcatenate(tokens[m..], m);
      FlattenCons(tokens[..m], TokenChunks(tokens[m..], m));
      assert tokens[..m] + tokens[m..] == tokens;
    }
  }

  /** Every chunk holds between 1 and `m` tokens, and every chunk but the
      last holds exactly `m`. */
  predicate WellSized(cs: seq<seq<Token>>, m: nat) {
    && (forall k :: 0 <= k < |cs| ==> 1 <= |cs[k]| <= m)
    && (forall k :: 0 <= k < |cs| - 1 ==> |cs[k]| == m)
  }

  lemma {:induction false} ChunkSizes(tokens: seq<Token>, m: nat)
    requires m > 0
    ensures WellSized(TokenChunks(tokens, m), m)
    decreases |tokens|
  {
    if |tokens| > m {
      ChunkSizes(tokens[m..], m);
      var rest := TokenChunks(tokens[m..], m);
      var cs := TokenChunks(tokens, m);
      assert cs == [tokens[..m]] + rest;
      forall k | 1 <= k < |cs| ensures 1 <= |cs[k]| <= m {
        assert cs[k] == rest[k - 1];
      }
      forall k | 1 <= k < |cs| - 1 ensures |cs[k]| == m {
        assert cs[k] == rest[k - 1];
      }
    }
  }

  /** There are `ceil(len(tokens) / m)` chunks, stated without division:
      `k` chunks of at most `m` tokens cover the tokens, `k - 1` do not.
      In particular an empty text has none. */
  lemma {:induction false} ChunkCount(tokens: seq<Token>, m: nat)
    requires m > 0
    ensures var k := |TokenChunks(tokens, m)|;
      (k == 0 <==> tokens == []) && (k - 1) * m < |tokens| <= k * m
    decreases |tokens|
  {
    if |tokens| > m {
      ChunkCount(tokens[m..], m);
      var k' := |TokenChunks(tokens[m..], m)|;
      assert |TokenChunks(tokens, m)| == k' + 1;
      assert (k' + 1) * m == k' * m + m;
      assert (k' + 1 - 1) * m == (k' - 1) * m + m;
    }
  }

  /** `chunk_text(text, max_tokens)`: Python's `range` raises on a zero
      step and is empty for a negative one. */
  method ChunkText(text: string, maxTokens: int,
                   encode: string -> seq<Token>, decode: seq<Token> -> string)
    returns (r: Result<seq<string>, string>)
    ensures maxTokens == 0 ==> r.Failure?
    ensures maxTokens < 0 ==> r == Success([])
    ensures maxTokens > 0 ==> r == Success(Map(TokenChunks(encode(text), maxTokens), decode))
  {
    if maxTokens == 0 {
      return Failure("range() arg 3 must not be zero");
    }
    var tokens := encode(text);
    if maxTokens < 0 {
      return Success([]);
    }
    var chunks := ChunkTokens(tokens, maxTokens, decode);
    return Success(chunks);
  }

  /** The loop of `chunk_text` for a positive step: decode each slice of
      `m` tokens, starting at 0, `m`, `2m`, ... */
  method ChunkTokens(tokens: seq<Token>, m: nat, decode: seq<Token> -> string) returns (chunks: seq<string>)
    requires m > 0
    ensures chunks == Map(TokenChunks(tokens, m), decode)
  {
    chunks := [];
    ghost var done: seq<seq<Token>> := [];
    var i := 0;
    while i < |tokens|
      invariant 0 <= i
      invariant |chunks| == |done| && forall k :: 0 <= k < |done| ==> chunks[k] == decode(done[k])
      invariant done + TokenChunks(Remaining(tokens, i), m) == TokenChunks(tokens, m)
    {
      var end := if i + m <= |tokens| then i + m else |tokens|;
      var chunk := tokens[i..end];
      ChunkLoopStep(tokens, i, m, done);
      done := done + [chunk];
      chunks := chunks + [decode(chunk)];
      i := i + m;
    }
    assert done + [] == done;
  }

  /** The tokens from position `i` on; none once `i` has passed the end. */
  function Remaining(tokens: seq<Token>, i: nat): seq<Token> {
    if i <= |tokens| then tokens[i..] else []
  }

  /** The chunk loop's invariant survives one pass. */
  lemma ChunkLoopStep(tokens: seq<Token>, i: nat, m: nat, done: seq<seq<Token>>)
    requires m > 0 && i < |tokens|
    requires done + TokenChunks(Remaining(tokens, i), m) == TokenChunks(tokens, m)
    ensures var end := if i + m <= |tokens| then i + m else |tokens|;
      (done + [tokens[i..end]]) + TokenChunks(Remaining(tokens, i + m), m) == TokenChunks(tokens, m)
  {
    var end := if i + m <= |tokens| then i + m else |tokens|;
    RemainingStep(tokens, i, m);
    var later := TokenChunks(Remaining(tokens, i + m), m);
    assert (done + [tokens[i..end]]) + later == done + ([tokens[i..end]] + later);
  }

  /** One pass of the chunk loop: the chunk at `i` is the first chunk of the
      remaining tokens, and the rest start `m` further on. */
  lemma RemainingStep(tokens: seq<Token>, i: nat, m: nat)
    requires m > 0 && i < |tokens|
    ensures var end := if i + m <= |tokens| then i + m else |tokens|;
      TokenChunks(Remaining(tokens, i), m) == [tokens[i..end]] + TokenChunks(Remaining(tokens, i + m), m)
  {
    var end := if i + m <= |tokens| then i + m else |tokens|;
    var rest := tokens[i..];
    TokenChunksStep(rest, m);
    assert rest[..end - i] == tokens[i..end];
    assert rest[end - i..] == Remaining(tokens, i + m);
  }

  // ---------------------------------------------------------------------
  // embed_code

  /** The decoded chunks of one snippet, as `embed_code` obtains them. */
  function SnippetChunks(snippet: string, encode: string -> seq<Token>,
                         decode: seq<Token> -> string): seq<string>
  {
    Map(TokenChunks(encode(snippet), MaxChunkTokens), decode)
  }

  /** All chunks of all snippets: snippet order, then chunk order. */
  function AllChunks(snippets: seq<string>, encode: string -> seq<Token>,
                     decode: seq<Token> -> string): seq<string>
    decreases |snippets|
  {
    if snippets == [] then []
    else AllChunks(snippets[..|snippets| - 1], encode, decode)
         + SnippetChunks(snippets[|snippets| - 1], encode, decode)
  }

  lemma AllChunksSnoc(snippets: seq<string>, s: nat, encode: string -> seq<Token>, decode: seq<Token> -> string)
    requires s < |snippets|
    ensures AllChunks(snippets[..s + 1], encode, decode) ==
            AllChunks(snippets[..s], encode, decode) + SnippetChunks(snippets[s], encode, decode)
  {
    assert snippets[..s + 1][..s] == snippets[..s];
  }

  /** What one pass of the outer loop of `embed_code` adds. */
  lemma OuterStep<B>(snippets: seq<string>, s: nat, encode: string -> seq<Token>, decode: seq<Token> -> string,
                     f: string -> Option<B>)
    requires s < |snippets|
    ensures FilterMap(AllChunks(snippets[..s + 1], encode, decode), f) ==
            FilterMap(AllChunks(snippets[..s], encode, decode), f) + FilterMap(SnippetChunks(snippets[s], encode, decode), f)
  {
    AllChunksSnoc(snippets, s, encode, decode);
    FilterMapAppend(AllChunks(snippets[..s], encode, decode), SnippetChunks(snippets[s], encode, decode), f);
  }

  /** The chunks whose token count triggers the printed warning. */
  function Oversized(chunks: seq<string>, countTokens: string -> nat): seq<string> {
    FilterMap(chunks, WarnFilter(countTokens))
  }

  function WarnFilter(countTokens: string -> nat): string -> Option<string> {
    (c: string) => if countTokens(c) > TokenWarningThreshold then Some(c) else None
  }

  /** `embed_code(snippets)`: every chunk of every snippet is sent to the
      embedding call, whatever its token count; the ones whose call raises
      are skipped. `warned` lists the chunks for which the over-8192-tokens
      warning is printed. */
  method EmbedCode(snippets: seq<string>, encode: string -> seq<Token>, decode: seq<Token> -> string,
                   countTokens: string -> nat, getEmbedding: string -> Option<Embedding>)
    returns (embeddings: seq<Embedding>, warned: seq<string>)
    ensures embeddings == FilterMap(AllChunks(snippets, encode, decode), getEmbedding)
    ensures warned == Oversized(AllChunks(snippets, encode, decode), countTokens)
  {
    embeddings, warned := [], [];
    var s := 0;
    while s < |snippets|
      invariant 0 <= s <= |snippets|
      invariant embeddings == FilterMap(AllChunks(snippets[..s], encode, decode), getEmbedding)
      invariant warned == Oversized(AllChunks(snippets[..s], encode, decode), countTokens)
    {
      var snippet := snippets[s];
      var r := ChunkText(snippet, MaxChunkTokens, encode, decode);
      assert r.Success?;
      var chunks := r.value;
      embeddings, warned := EmbedChunks(chunks, countTokens, getEmbedding, embeddings, warned);
      OuterStep(snippets, s, encode, decode, getEmbedding);
      OuterStep(snippets, s, encode, decode, WarnFilter(countTokens));
      s := s + 1;
    }
    assert snippets[..|snippets|] == snippets;
  }

  /** The inner loop of `embed_code`: the chunks of one snippet, appended
      to the embeddings (and warnings) gathered so far. */
  method EmbedChunks(chunks: seq<string>, countTokens: string -> nat, getEmbedding: string -> Option<Embedding>,
                     embeddings0: seq<Embedding>, warned0: seq<string>)
    returns (embeddings: seq<Embedding>, warned: seq<string>)
    ensures embeddings == embeddings0 + FilterMap(chunks, getEmbedding)
    ensures warned == warned0 + Oversized(chunks, countTokens)
  {
    var isOver := WarnFilter(countTokens);
    embeddings, warned := embeddings0, warned0;
    var c := 0;
    while c < |chunks|
      invariant 0 <= c <= |chunks|
      invariant embeddings == embeddings0 + FilterMap(chunks[..c], getEmbedding)
      invariant warned == warned0 + FilterMap(chunks[..c], isOver)
    {
      var chunk := chunks[c];
      var chunkTokens := countTokens(chunk);
      if chunkTokens > TokenWarningThreshold {
        warned := warned + [chunk];
      }
      var embedding := getEmbedding(chunk);
      if embedding.Some? {
        embeddings := embeddings + [embedding.value];
      }
      assert isOver(chunk) == if chunkTokens > TokenWarningThreshold then Some(chunk) else None;
      FilterMapSnoc(chunks, c, getEmbedding);
      FilterMapSnoc(chunks, c, isOver);
      c := c + 1;
    }
    assert chunks[..|chunks|] == chunks;
  }

  /** There are never more embeddings than chunks, and when every call
      succeeds there is one per chunk, in chunk order. */
  lemma EmbeddingsPerChunk(snippets: seq<string>, encode: string -> seq<Token>,
                           decode: seq<Token> -> string, getEmbedding: string -> Option<Embedding>)
    ensures var chunks := AllChunks(snippets, encode, decode);
      var es := FilterMap(chunks, getEmbedding);
      && |es| <= |chunks|
      && ((forall k :: 0 <= k < |chunks| ==> getEmbedding(chunks[k]).Some?) ==>
            |es| == |chunks| && forall k :: 0 <= k < |chunks| ==> es[k] == getEmbedding(chunks[k]).value)
  {
    var chunks := AllChunks(snippets, encode, decode);
    if forall k :: 0 <= k < |chunks| ==> getEmbedding(chunks[k]).Some? {
      FilterMapAllSome(chunks, getEmbedding);
    }
  }

  /** A chunk whose embedding call fails is skipped and the loop goes on:
      the chunks before and after it contribute as if it were absent. */
  lemma FailedChunkSkipped(before: seq<string>, chunk: string, after: seq<string>,
                           getEmbedding: string -> Option<Embedding>)
    requires getEmbedding(chunk).None?
    ensures FilterMap(before + [chunk] + after, getEmbedding) ==
            FilterMap(before, getEmbedding) + FilterMap(after, getEmbedding)
  {
    FilterMapAppend(before + [chunk], after, getEmbedding);
    FilterMapAppend(before, [chunk], getEmbedding);
    assert FilterMap([chunk], getEmbedding) == FilterMap([], getEmbedding);
  }

  /** The chunks of a sequence of snippets are the chunks of each snippet
      in turn. */
  lemma {:induction false} AllChunksAppend(xs: seq<string>, ys: seq<string>,
                                           encode: string -> seq<Token>, decode: seq<Token> -> string)
    ensures AllChunks(xs + ys, encode, decode) == AllChunks(xs, encode, decode) + AllChunks(ys, encode, decode)
    decreases |ys|
  {
    if ys == [] {
      assert xs + ys == xs;
    } else {
      var ys', last := ys[..|ys| - 1], ys[|ys| - 1];
      var zs := xs + ys;
      assert zs[..|zs| - 1] == xs + ys' && zs[|zs| - 1] == last;
      AllChunksAppend(xs, ys', encode, decode);
      assert AllChunks(zs, encode, decode) == AllChunks(xs + ys', encode, decode) + SnippetChunks(last, encode, decode);
      assert AllChunks(ys, encode, decode) == AllChunks(ys', encode, decode) + SnippetChunks(last, encode, decode);
    }
  }

  // ---------------------------------------------------------------------
  // save_embeddings_json

  /** One element of the saved JSON list. */
  datatype EmbeddingRecord = EmbeddingRecord(embedding: Embedding, code: string)

  /** `[{"embedding": e, "code": s} for e, s in zip(embeddings, code_snippets)]`. */
  function SaveRecords(embeddings: seq<Embedding>, codeSnippets: seq<string>): (r: seq<EmbeddingRecord>)
    ensures |r| == if |embeddings| <= |codeSnippets| then |embeddings| else |codeSnippets|
    ensures forall i :: 0 <= i < |r| ==> r[i].embedding == embeddings[i] && r[i].code == codeSnippets[i]
  {
    var n := if |embeddings| <= |codeSnippets| then |embeddings| else |codeSnippets|;
    seq(n, i requires 0 <= i < n => EmbeddingRecord(embeddings[i], codeSnippets[i]))
  }

  /** Unzipping the saved records gives back the shorter list and the
      matching prefix of the longer one. */
  lemma SaveRecordsUnzip(embeddings: seq<Embedding>, codeSnippets: seq<string>)
    ensures var r := SaveRecords(embeddings, codeSnippets);
      && Map(r, (x: EmbeddingRecord) => x.embedding) == embeddings[..|r|]
      && Map(r, (x: EmbeddingRecord) => x.code) == codeSnippets[..|r|]
  {
  }

  /** The records the script's comprehension would build, as wired in the
      source: the embeddings of all chunks zipped with the list of whole
      files. */
  function ScriptRecords(snippets: seq<string>, encode: string -> seq<Token>, decode: seq<Token> -> string,
                         getEmbedding: string -> Option<Embedding>): seq<EmbeddingRecord>
  {
    SaveRecords(FilterMap(AllChunks(snippets, encode, decode), getEmbedding), snippets)
  }

  /** A snippet that encodes to at most `MaxChunkTokens` tokens (and at
      least one) is a single chunk. */
  lemma SingleChunk(snippet: string, encode: string -> seq<Token>, decode: seq<Token> -> string)
    requires 0 < |encode(snippet)| <= MaxChunkTokens
    ensures SnippetChunks(snippet, encode, decode) == [decode(encode(snippet))]
  {
  }

  // The two-file example of the misalignment: "A" and "B" encode to one
  // token each, and the embedding call fails on "A".
  function ExampleEncode(s: string): seq<Token> { if s == "A" then [1] else [2] }
  function ExampleDecode(t: seq<Token>): string { if t == [1] then "A" else "B" }
  function ExampleEmbedding(c: string): Option<Embedding> { if c == "A" then None else Some([1.0]) }

  /** Two one-chunk files, the first of whose embedding call fails: the zip
      builds a single record, which pairs the second file's embedding with
      the first file's code. */
  lemma ScriptRecordsMisaligned()
    ensures var r := ScriptRecords(["A", "B"], ExampleEncode, ExampleDecode, ExampleEmbedding);
      && |r| == 1
      && r[0].code == "A"
      && ExampleEmbedding(r[0].code) != Some(r[0].embedding)
  {
    ExampleChunks();
    ExampleEmbeddings();
    var r := SaveRecords([[1.0]], ["A", "B"]);
    assert r[0] == EmbeddingRecord([1.0], "A");
  }

  /** Each example file is a single chunk of its own text. */
  lemma ExampleChunks()
    ensures AllChunks(["A", "B"], ExampleEncode, ExampleDecode) == ["A", "B"]
  {
    SingleChunk("A", ExampleEncode, ExampleDecode);
    SingleChunk("B", ExampleEncode, ExampleDecode);
    assert ["A", "B"][..1] == ["A"];
    assert ["A"][..0] == [];
    assert AllChunks(["A"], ExampleEncode, ExampleDecode) == ["A"];
  }

  /** Only the second example chunk gets an embedding. */
  lemma ExampleEmbeddings()
    ensures FilterMap(["A", "B"], ExampleEmbedding) == [[1.0]]
  {
    assert ["A", "B"][..1] == ["A"];
    assert ["A"][..0] == [];
    assert FilterMap(["A"], ExampleEmbedding) == [];
  }

  /** Records in which each embedding is paired with the chunk it was
      computed from. */
  function AlignedRecords(snippets: seq<string>, encode: string -> seq<Token>, decode: seq<Token> -> string,
                          getEmbedding: string -> Option<Embedding>): seq<EmbeddingRecord>
  {
    FilterMap(AllChunks(snippets, encode, decode), (c: string) =>
      if getEmbedding(c).Some? then Some(EmbeddingRecord(getEmbedding(c).value, c)) else None)
  }

  /** Every aligned record holds the embedding of its own code, and the
      embeddings appear exactly as `embed_code` returns them. */
  lemma AlignedRecordsCorrect(snippets: seq<string>, encode: string -> seq<Token>, decode: seq<Token> -> string,
                              getEmbedding: string -> Option<Embedding>)
    ensures var r := AlignedRecords(snippets, encode, decode, getEmbedding);
      && (forall i :: 0 <= i < |r| ==> getEmbedding(r[i].code) == Some(r[i].embedding))
      && Map(r, (x: EmbeddingRecord) => x.embedding) == FilterMap(AllChunks(snippets, encode, decode), getEmbedding)
  {
    var pair := (c: string) =>
      if getEmbedding(c).Some? then Some(EmbeddingRecord(getEmbedding(c).value, c)) else None;
    AlignedFilterMap(AllChunks(snippets, encode, decode), getEmbedding, pair);
  }

  lemma {:induction false} AlignedFilterMap(chunks: seq<string>, getEmbedding: string -> Option<Embedding>,
                                            pair: string -> Option<EmbeddingRecord>)
    requires forall c :: pair(c) == if getEmbedding(c).Some? then Some(EmbeddingRecord(getEmbedding(c).value, c)) else None
    ensures var r := FilterMap(chunks, pair);
      && (forall i :: 0 <= i < |r| ==> getEmbedding(r[i].code) == Some(r[i].embedding))
      && Map(r, (x: EmbeddingRecord) => x.embedding) == FilterMap(chunks, getEmbedding)
    decreases |chunks|
  {
    if chunks != [] {
      AlignedFilterMap(chunks[..|chunks| - 1], getEmbedding, pair);
    }
  }
}
