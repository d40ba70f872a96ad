/** Splitting a document into overlapping windows. */
module Chunking {
  import opened Messages

  // `start` in round k of the loop.
  function Start(k: nat, step: int): int {
    if k == 0 then 0 else Start(k - 1, step) + step
  }

  function Window(text: string, size: nat, step: int, k: nat): string
    requires 0 <= Start(k, step) <= |text|
  {
    text[Start(k, step)..Min(Start(k, step) + size, |text|)]
  }

  // The windows of a text: each starts inside the text, all but the last stop short of its end, and
  // the last reaches it.
  ghost predicate Windows(text: string, size: nat, overlap: nat, chunks: seq<string>) {
    var step := size - overlap;
    && (chunks == [] <==> text == "")
    && (forall k | 0 <= k < |chunks| :: 0 <= Start(k, step) < |text| && chunks[k] == Window(text, size, step, k))
    && (forall k | 0 <= k < |chunks| - 1 :: Start(k, step) + size < |text|)
    && (chunks != [] ==> Start(|chunks| - 1, step) + size >= |text|)
  }

  // The windows so far, all of which stop short of the end.
  ghost predicate Partial(text: string, size: nat, step: int, chunks: seq<string>) {
    forall k | 0 <= k < |chunks| ::
      0 <= Start(k, step) && Start(k, step) + size < |text| && chunks[k] == Window(text, size, step, k)
  }

  lemma LastWindow(text: string, size: nat, overlap: nat, chunks: seq<string>, start: nat)
    requires Partial(text, size, size - overlap, chunks)
    requires start == Start(|chunks|, size - overlap) < |text| <= start + size
    ensures Windows(text, size, overlap, chunks + [text[start..]])
  {
    var all := chunks + [text[start..]];
    assert forall k | 0 <= k < |chunks| :: all[k] == chunks[k];
  }

  // The loop of `chunk_text`.
  method ChunkText(text: string, size: nat, overlap: nat) returns (chunks: seq<string>)
    requires overlap < size || |text| <= size
    ensures Windows(text, size, overlap, chunks)
  {
    chunks := [];
    var start := 0;
    while start < |text|
      invariant 0 <= start == Start(|chunks|, size - overlap)
      invariant if text == "" then chunks == [] else start < |text|
      invariant Partial(text, size, size - overlap, chunks)
      decreases |text| - start
    {
      var end := Min(start + size, |text|);
      if end == |text| {
        LastWindow(text, size, overlap, chunks, start);
      }
      chunks := chunks + [text[start..end]];
      if end == |text| {
        break;
      }
      start := start + (size - overlap);
    }
  }

  // ---- When the loop stops ----

  // The loop is over in round k: the start has passed the end, or the window reaches it.
  predicate OverIn(len: nat, size: int, overlap: int, k: nat) {
    var start := Start(k, size - overlap);
    start >= len || Min(start + size, len) == len
  }

  lemma {:induction false} StartIsProduct(k: nat, step: int)
    ensures Start(k, step) == k * step
  {
    if k > 0 {
      StartIsProduct(k - 1, step);
      assert k * step == (k - 1) * step + step;
    }
  }

  lemma {:induction false} StartAdvances(k: nat, step: int)
    ensures step >= 1 ==> Start(k, step) >= k
    ensures step <= 0 ==> Start(k, step) <= 0
  {
    if k > 0 {
      StartAdvances(k - 1, step);
    }
  }

  // For any sizes, also negative ones, the loop ends in some round exactly if the window advances or
  // the text is empty or fits in one.
  lemma StopsWhen(len: nat, size: int, overlap: int)
    ensures (exists k: nat :: OverIn(len, size, overlap, k)) <==> overlap < size || len == 0 || len <= size
  {
    if overlap < size {
      StartAdvances(len, size - overlap);
      assert OverIn(len, size, overlap, len);
    } else if len == 0 || len <= size {
      assert OverIn(len, size, overlap, 0);
    } else {
      forall k: nat ensures !OverIn(len, size, overlap, k) {
        StartAdvances(k, size - overlap);
      }
    }
  }

  // ---- What the windows promise ----

  // There are several windows only if they advance and the text is longer than one.
  lemma SeveralStopShort(text: string, size: nat, overlap: nat, chunks: seq<string>)
    requires Windows(text, size, overlap, chunks)
    ensures |chunks| > 1 <==> |text| > size
    ensures |chunks| > 1 ==> overlap < size
  {
    if |chunks| > 1 {
      assert Start(0, size - overlap) + size < |text|;
      StartAdvances(|chunks| - 1, size - overlap);
    }
  }

  // Every chunk has at most `size` characters, neighbours share exactly `overlap`, and the last of
  // several brings more than the overlap.
  lemma NeighboursOverlap(text: string, size: nat, overlap: nat, chunks: seq<string>, k: nat)
    requires Windows(text, size, overlap, chunks) && k < |chunks|
    ensures 0 < |chunks[k]| <= size
    ensures k + 1 < |chunks| ==>
              && overlap < size == |chunks[k]| && |chunks[k + 1]| > overlap
              && chunks[k][size - overlap..] == chunks[k + 1][..overlap]
  {
    var step := size - overlap;
    SeveralStopShort(text, size, overlap, chunks);
    if k + 1 < |chunks| {
      assert Start(k, step) + size < |text|;
      assert Start(k + 1, step) == Start(k, step) + step;
      var a, b := chunks[k][step..], chunks[k + 1][..overlap];
      assert forall i | 0 <= i < overlap :: a[i] == text[Start(k, step) + step + i] == b[i];
    }
  }

  // The first chunk, and each later one of the first n without the characters it shares with the
  // one before.
  function Rebuild(chunks: seq<string>, overlap: nat, n: nat): string
    requires n <= |chunks| && forall k | 0 < k < |chunks| :: overlap <= |chunks[k]|
  {
    if n == 0 then "" else if n == 1 then chunks[0] else Rebuild(chunks, overlap, n - 1) + chunks[n - 1][overlap..]
  }

  // Where window k ends.
  function Reach(text: string, size: nat, step: int, k: nat): int {
    Min(Start(k, step) + size, |text|)
  }

  lemma DropSlice(text: string, a: nat, b: nat, n: nat)
    requires a + n <= b <= |text|
    ensures text[a..b][n..] == text[a + n..b]
  {
  }

  // What a chunk brings beyond the one before it.
  lemma NewPart(text: string, size: nat, overlap: nat, chunks: seq<string>, k: nat)
    requires Windows(text, size, overlap, chunks) && 0 < k < |chunks|
    ensures var from := Reach(text, size, size - overlap, k - 1);
            var to := Reach(text, size, size - overlap, k);
            0 <= from <= to <= |text| && overlap <= |chunks[k]| && chunks[k][overlap..] == text[from..to]
  {
    var step := size - overlap;
    SeveralStopShort(text, size, overlap, chunks);
    assert Start(k - 1, step) + size < |text| && Start(k, step) == Start(k - 1, step) + step;
    DropSlice(text, Start(k, step), Reach(text, size, step, k), overlap);
  }

  lemma TakeMore(text: string, a: nat, b: nat)
    requires a <= b <= |text|
    ensures text[..a] + text[a..b] == text[..b]
  {
  }

  lemma {:induction false} RebuildPrefix(text: string, size: nat, overlap: nat, chunks: seq<string>, n: nat)
    requires Windows(text, size, overlap, chunks) && 0 < n <= |chunks|
    requires forall k | 0 < k < |chunks| :: overlap <= |chunks[k]|
    ensures 0 <= Reach(text, size, size - overlap, n - 1) <= |text|
    ensures Rebuild(chunks, overlap, n) == text[..Reach(text, size, size - overlap, n - 1)]
  {
    if n == 1 {
      assert chunks[0] == Window(text, size, size - overlap, 0);
    } else {
      RebuildPrefix(text, size, overlap, chunks, n - 1);
      NewPart(text, size, overlap, chunks, n - 1);
      TakeMore(text, Reach(text, size, size - overlap, n - 2), Reach(text, size, size - overlap, n - 1));
    }
  }

  lemma LaterChunksOverlap(text: string, size: nat, overlap: nat, chunks: seq<string>)
    requires Windows(text, size, overlap, chunks)
    ensures forall k | 0 < k < |chunks| :: overlap <= |chunks[k]|
  {
    forall k | 0 < k < |chunks| ensures overlap <= |chunks[k]| {
      NewPart(text, size, overlap, chunks, k);
    }
  }

  lemma LastReachesTheEnd(text: string, size: nat, overlap: nat, chunks: seq<string>)
    requires Windows(text, size, overlap, chunks) && chunks != []
    ensures Reach(text, size, size - overlap, |chunks| - 1) == |text|
  {
  }

  // The chunks rebuild the text.
  lemma ChunksCoverTheText(text: string, size: nat, overlap: nat, chunks: seq<string>)
    requires Windows(text, size, overlap, chunks)
    ensures forall k | 0 < k < |chunks| :: overlap <= |chunks[k]|
    ensures Rebuild(chunks, overlap, |chunks|) == text
  {
    LaterChunksOverlap(text, size, overlap, chunks);
    if chunks != [] {
      RebuildPrefix(text, size, overlap, chunks, |chunks|);
      LastReachesTheEnd(text, size, overlap, chunks);
      assert text[..|text|] == text;
    }
  }

  // ---- How many ----

  lemma Multiples(a: int, d: int)
    requires d > 0
    ensures (a >= 1 ==> a * d >= d) && (a <= -1 ==> a * d <= -d) && (a >= 0 ==> a * d >= 0)
  {
  }

  lemma QuotientIs(x: int, d: int, n: int)
    requires d > 0 && (n - 1) * d < x <= n * d
    ensures (x + d - 1) / d == n
  {
    var q, m := (x + d - 1) / d, (x + d - 1) % d;
    assert (n - 1) * d == n * d - d;
    assert (q - n) * d == q * d - n * d;
    assert q * d + m == x + d - 1;
    Multiples(q - n, d);
  }

  lemma OneStepApart(n: int, d: int)
    ensures (n - 1) * d == (n - 2) * d + d && n * d == (n - 1) * d + d
  {
  }

  // A text longer than one window has ceil((len - overlap) / (size - overlap)) of them.
  lemma NumberOfChunks(text: string, size: nat, overlap: nat, chunks: seq<string>)
    requires Windows(text, size, overlap, chunks)
    ensures |text| > size ==>
              overlap < size && |chunks| == (|text| - overlap + (size - overlap) - 1) / (size - overlap)
    ensures 0 < |text| <= size ==> |chunks| == 1
  {
    var step := size - overlap;
    var n := |chunks|;
    SeveralStopShort(text, size, overlap, chunks);
    if |text| > size {
      StartIsProduct(n - 1, step);
      StartIsProduct(n - 2, step);
      assert Start(n - 2, step) + size < |text|;
      OneStepApart(n, step);
      QuotientIs(|text| - overlap, step, n);
    }
  }
}
