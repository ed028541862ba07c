/** The conversation chunking of src/analysis.py: how many dialog entries go
    into one request to the language model, and how the dialog is cut into
    pieces of that size. */
module Analysis {
  import opened Common

  const AvgTokensPerEntry := 50
  const DefaultMaxTokens := 300

  function Max(a: int, b: int): int { if a >= b then a else b }
  function Min(a: int, b: int): int { if a <= b then a else b }

  /** src/analysis.py:25-28. Python's `//` floors; for the positive divisor 50 this
      is Dafny's division. The chunk size is at least 1, at most the dialog length
      and at most the token budget divided by 50 (each raised to 1), and it is the
      smaller of the two whenever both are at least 1. */
  function DynamicChunkSize(length: nat, maxTokens: int): (size: int)
    ensures 1 <= size
    ensures size <= Max(1, length) && size <= Max(1, maxTokens / AvgTokensPerEntry)
    ensures length >= 1 && maxTokens >= AvgTokensPerEntry ==> size == Min(length, maxTokens / AvgTokensPerEntry)
  {
    Max(1, Min(length, maxTokens / AvgTokensPerEntry))
  }

  /** With the default budget of 300 tokens a chunk holds at most 6 entries. */
  lemma DefaultChunkSizeAtMostSix(length: nat)
    ensures DynamicChunkSize(length, DefaultMaxTokens) <= 6
    ensures length >= 6 ==> DynamicChunkSize(length, DefaultMaxTokens) == 6
  {
  }

  /** The length of `range(0, n, step)` for a non-zero step. */
  function RangeLength(n: nat, step: int): nat
    requires step != 0
  {
    if step > 0 then (n + step - 1) / step else 0
  }

  /** src/analysis.py:31-33: the slices `xs[i:i + size]` for `i` in `range(0, len(xs), size)`.
      A step of 0 makes `range` raise, so the size must not be 0; a negative size
      gives no chunks. */
  function ChunkConversation<T>(xs: seq<T>, size: int): (r: seq<seq<T>>)
    requires size != 0
    ensures |r| == RangeLength(|xs|, size)
  {
    var count := RangeLength(|xs|, size);
    seq(count, k requires 0 <= k < count =>
      SliceStart(|xs|, size, k);
      xs[k * size .. Min((k + 1) * size, |xs|)])
  }

  /** Every chunk but possibly the last starts inside the dialog. */
  lemma {:induction false} SliceStart(n: nat, size: int, k: nat)
    requires size > 0 && k < RangeLength(n, size)
    ensures 0 <= k * size < n && k * size < (k + 1) * size
  {
    var count := RangeLength(n, size);
    CountCovers(n, size);
    MulMonotone(k, count - 1, size);
  }

  /** The chunks reach the end of the dialog and no further than one chunk beyond it. */
  lemma {:induction false} CountCovers(n: nat, size: int)
    requires size > 0
    ensures var count := RangeLength(n, size);
      count * size >= n && (count - 1) * size < n
  {
    var count := (n + size - 1) / size;
    var rem := (n + size - 1) % size;
    assert count * size + rem == n + size - 1;
    assert (count - 1) * size == count * size - size;
  }

  lemma {:induction false} MulMonotone(a: int, b: int, size: int)
    requires 0 <= a <= b && size > 0
    ensures a * size <= b * size
  {
    assert b * size - a * size == (b - a) * size;
  }

  /** The number of chunks is the length divided by the size, rounded up; an empty
      dialog has none. */
  lemma ChunkCount<T>(xs: seq<T>, size: int)
    requires size > 0
    ensures |ChunkConversation(xs, size)| == (|xs| + size - 1) / size
    ensures ChunkConversation(xs, size) == [] <==> xs == []
  {
    if xs != [] {
      assert RangeLength(|xs|, size) >= 1;
    }
  }

  /** Every chunk is non-empty and at most `size` long, and all but the last have
      exactly `size` entries. */
  lemma {:induction false} ChunkLengths<T>(xs: seq<T>, size: int)
    requires size > 0
    ensures var r := ChunkConversation(xs, size);
      && (forall k :: 0 <= k < |r| ==> 1 <= |r[k]| <= size)
      && (forall k :: 0 <= k < |r| - 1 ==> |r[k]| == size)
  {
    var r := ChunkConversation(xs, size);
    var count := |r|;
    forall k | 0 <= k < count
      ensures 1 <= |r[k]| <= size
      ensures k < count - 1 ==> |r[k]| == size
    {
      SliceStart(|xs|, size, k);
      assert (k + 1) * size == k * size + size;
      if k < count - 1 {
        CountCovers(|xs|, size);
        MulMonotone(k + 1, count - 1, size);
      }
    }
  }

  /** Concatenating the chunks gives the dialog back exactly. */
  lemma {:induction false} ChunksConcat<T>(xs: seq<T>, size: int)
    requires size > 0
    ensures Concat(ChunkConversation(xs, size)) == xs
  {
    var r := ChunkConversation(xs, size);
    ChunksPrefix(xs, size, |r|);
    CountCovers(|xs|, size);
    assert r[..|r|] == r;
    assert xs[..Min(|r| * size, |xs|)] == xs;
  }

  lemma {:induction false} ChunksPrefix<T>(xs: seq<T>, size: int, k: nat)
    requires size > 0 && k <= RangeLength(|xs|, size)
    ensures Concat(ChunkConversation(xs, size)[..k]) == xs[..Min(k * size, |xs|)]
    decreases k
  {
    var r := ChunkConversation(xs, size);
    if k > 0 {
      ChunksPrefix(xs, size, k - 1);
      SliceStart(|xs|, size, k - 1);
      var a := (k - 1) * size;
      var b := Min(k * size, |xs|);
      assert k * size == a + size;
      assert a < b <= |xs| && Min(a, |xs|) == a;
      assert r[k - 1] == xs[a..b];
      assert r[..k] == r[..k - 1] + [r[k - 1]];
      ConcatSnoc(r[..k - 1], r[k - 1]);
      assert xs[..a] + xs[a..b] == xs[..b];
    }
  }

  /** The conversation cut at the dynamic chunk size: non-empty chunks of at most
      that many entries, which concatenate back to the conversation. */
  lemma DynamicChunking<T>(conversation: seq<T>, maxTokens: int)
    ensures var size := DynamicChunkSize(|conversation|, maxTokens);
      && size >= 1
      && Concat(ChunkConversation(conversation, size)) == conversation
      && |ChunkConversation(conversation, size)| == (|conversation| + size - 1) / size
  {
    var size := DynamicChunkSize(|conversation|, maxTokens);
    ChunksConcat(conversation, size);
  }
}
