/** Fixed-size, order-preserving slicing of a text into chunks. */
module Chunker {

  /** Chunk size the ingestion pipeline uses. */
  const DefaultChunkSize: nat := 1000

  function Min(a: int, b: int): int {
    if a <= b then a else b
  }

  /** The strings of `parts` joined in order. */
  function Flatten(parts: seq<string>): string {
    if parts == [] then [] else parts[0] + Flatten(parts[1..])
  }

  /**
   * The slices `text[0..size]`, `text[size..2*size]`, ..., the last one
   * cut at the end of the text. A zero size is only meaningful on an
   * empty text (on any other text the slicing loop never advances).
   */
  function Chunks(text: string, size: nat): (r: seq<string>)
    requires size > 0 || |text| == 0
    ensures r == [] <==> |text| == 0
    ensures |r| <= |text|
    decreases |text|
  {
    if |text| == 0 then []
    else if |text| <= size then [text]
    else [text[..size]] + Chunks(text[size..], size)
  }

  /** Slices `text` by stepping an offset through it `chunkSize` at a time. */
  method ChunkText(text: string, chunkSize: nat := DefaultChunkSize) returns (chunks: seq<string>)
    requires chunkSize > 0 || |text| == 0
    ensures chunks == Chunks(text, chunkSize)
    ensures Flatten(chunks) == text
  {
    chunks := [];
    var i := 0;
    while i < |text|
      invariant i <= |text| || chunkSize > 0
      invariant chunks + Chunks(text[Min(i, |text|)..], chunkSize) == Chunks(text, chunkSize)
      decreases |text| - i
    {
      var end := Min(i + chunkSize, |text|);
      var rest := text[i..];
      assert text[Min(i, |text|)..] == rest;
      if |rest| > chunkSize {
        assert rest[..chunkSize] == text[i..end];
        assert rest[chunkSize..] == text[Min(i + chunkSize, |text|)..];
        assert Chunks(rest, chunkSize) == [text[i..end]] + Chunks(text[Min(i + chunkSize, |text|)..], chunkSize);
      } else {
        assert rest == text[i..end];
        assert text[Min(i + chunkSize, |text|)..] == [];
        assert Chunks(rest, chunkSize) == [text[i..end]] + Chunks(text[Min(i + chunkSize, |text|)..], chunkSize);
      }
      chunks := chunks + [text[i..end]];
      i := i + chunkSize;
    }
    assert text[Min(i, |text|)..] == [];
    ChunksReassemble(text, chunkSize);
  }

  /** Joining the chunks in order gives back the text exactly. */
  lemma {:induction false} ChunksReassemble(text: string, size: nat)
    requires size > 0 || |text| == 0
    ensures Flatten(Chunks(text, size)) == text
    decreases |text|
  {
    if |text| > size {
      ChunksReassemble(text[size..], size);
      assert text[..size] + text[size..] == text;
    }
  }

  /**
   * The chunk count is the ceiling of |text| / size: `n` chunks cover the
   * text and `n - 1` chunks of full size do not.
   */
  lemma {:induction false} ChunkCount(text: string, size: nat)
    requires size > 0
    ensures var n := |Chunks(text, size)|;
      (n == 0 <==> |text| == 0) && (n - 1) * size < |text| <= n * size
    ensures |Chunks(text, size)| == (|text| + size - 1) / size
  {
    ChunkBounds(text, size);
    CeilingDivision(|text|, size, |Chunks(text, size)|);
  }

  /** Each chunk but the last is full, so `n` chunks cover more than `n - 1` sizes and at most `n`. */
  lemma {:induction false} ChunkBounds(text: string, size: nat)
    requires size > 0
    ensures var n := |Chunks(text, size)|;
      (n == 0 <==> |text| == 0) && (n - 1) * size < |text| <= n * size
    decreases |text|
  {
    if |text| > size {
      ChunkBounds(text[size..], size);
      var m := |Chunks(text[size..], size)|;
      assert |Chunks(text, size)| == m + 1;
      assert (m + 1) * size == m * size + size;
    }
  }

  /** A count `n` with (n - 1) * size < len <= n * size is the rounded-up quotient. */
  lemma CeilingDivision(len: nat, size: nat, n: nat)
    requires size > 0 && (n - 1) * size < len <= n * size
    ensures n == (len + size - 1) / size
  {
    var q := (len + size - 1) / size;
    var r := (len + size - 1) % size;
    assert len + size - 1 == q * size + r && 0 <= r < size;
    if q < n {
      MulMonotone(q, n - 1, size);
    } else if q > n {
      MulMonotone(n + 1, q, size);
    }
  }

  lemma MulMonotone(a: int, b: int, c: nat)
    requires a <= b
    ensures a * c <= b * c
  {
  }

  /**
   * Every chunk but the last holds exactly `size` characters; the last one
   * holds between 1 and `size`.
   */
  lemma {:induction false} ChunkLengths(text: string, size: nat)
    requires size > 0
    ensures var cs := Chunks(text, size);
      (forall k :: 0 <= k < |cs| - 1 ==> |cs[k]| == size) &&
      (|cs| > 0 ==> 0 < |cs[|cs| - 1]| <= size)
    decreases |text|
  {
    if |text| > size {
      ChunkLengths(text[size..], size);
    }
  }

  /** Chunk `k` is the window of the text starting at offset k * size. */
  lemma {:induction false} ChunkAt(text: string, size: nat, k: nat)
    requires size > 0 && k < |Chunks(text, size)|
    ensures k * size < |text|
    ensures Chunks(text, size)[k] == text[k * size..Min(k * size + size, |text|)]
    decreases |text|
  {
    if |text| > size && k > 0 {
      var rest := text[size..];
      ChunkAt(rest, size, k - 1);
      var j := (k - 1) * size;
      assert j + size == k * size;
      assert Chunks(text, size)[k] == Chunks(rest, size)[k - 1];
      assert Min(j + size, |rest|) + size == Min(k * size + size, |text|);
      assert rest[j..Min(j + size, |rest|)] == text[k * size..Min(k * size + size, |text|)];
    }
  }
}
