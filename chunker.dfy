/** The overlapping-window chunker of app/rag/chunker.py. */
module Chunker {
  import opened Text

  const DefaultChunkSize := 500
  const DefaultChunkOverlap := 100

  /** Python's slice `s[lo:hi]`: a negative bound counts from the end, and both bounds are clipped. */
  function PySlice(s: string, lo: int, hi: int): (r: string)
    ensures |r| <= |s|
  {
    var a := if lo < 0 then (if lo + |s| < 0 then 0 else lo + |s|) else if lo > |s| then |s| else lo;
    var b := if hi < 0 then (if hi + |s| < 0 then 0 else hi + |s|) else if hi > |s| then |s| else hi;
    if a < b then s[a..b] else []
  }

  /** Inside the text, a slice with a non-negative start is the plain subsequence, clipped at the end. */
  lemma PySliceInRange(s: string, lo: int, hi: int)
    requires 0 <= lo < |s| && lo <= hi
    ensures PySlice(s, lo, hi) == s[lo..if hi <= |s| then hi else |s|]
  {
  }

  lemma MulSucc(i: int, step: int)
    ensures (i + 1) * step == i * step + step
  {
  }

  lemma MulNonNeg(i: nat, step: nat)
    ensures i * step >= 0
  {
  }

  /** How many times the loop body runs on a text of length `n` when the cursor advances by `step`. */
  function ChunkCount(n: int, step: int): nat
    requires step > 0
    decreases n
  {
    if n <= 0 then 0 else 1 + ChunkCount(n - step, step)
  }

  /** The chunks `chunk_text(text, size, overlap)` returns, in closed form:
      chunk `i` is `text[i*step : i*step+size]` with `step = size - overlap`. */
  function Chunks(text: string, size: int, overlap: int): seq<string>
    requires |text| == 0 || size - overlap > 0
  {
    if |text| == 0 then []
    else
      var step := size - overlap;
      seq(ChunkCount(|text|, step), i => PySlice(text, i * step, i * step + size))
  }

  /** The windowing loop: the cursor `start` advances by `size - overlap` until it reaches the end. */
  method ChunkText(text: string, size: int, overlap: int) returns (chunks: seq<string>)
    requires |text| == 0 || size - overlap > 0
    ensures chunks == Chunks(text, size, overlap)
  {
    chunks := [];
    if |text| == 0 {
      return;
    }
    var step := size - overlap;
    var start := 0;
    while start < |text|
      invariant start == |chunks| * step
      invariant |chunks| + ChunkCount(|text| - start, step) == ChunkCount(|text|, step)
      invariant forall i :: 0 <= i < |chunks| ==> chunks[i] == PySlice(text, i * step, i * step + size)
      decreases |text| - start
    {
      MulSucc(|chunks|, step);
      var end := start + size;
      chunks := chunks + [PySlice(text, start, end)];
      start := start + step;
    }
  }

  /** After `i` iterations the cursor sits at `i * step`; the loop is still running exactly when
      that is below the text length. */
  lemma {:induction false} CursorInRange(n: int, step: int, i: nat)
    requires step > 0
    ensures i < ChunkCount(n, step) <==> i * step < n
  {
    if i > 0 && n > 0 {
      CursorInRange(n - step, step, i - 1);
      assert (i - 1) * step == i * step - step;
    }
  }

  /** The number of chunks is the ceiling of `len(text) / step`, and there is exactly one chunk
      iff the text is non-empty and no longer than `step`. */
  lemma ChunkCountIsCeiling(text: string, size: int, overlap: int)
    requires size - overlap > 0
    ensures var c := |Chunks(text, size, overlap)|; var step := size - overlap;
      c * step >= |text| && (c == 0 || (c - 1) * step < |text|)
    ensures |Chunks(text, size, overlap)| == 1 <==> 0 < |text| <= size - overlap
  {
    var step := size - overlap;
    var c := |Chunks(text, size, overlap)|;
    if |text| > 0 {
      assert c == ChunkCount(|text|, step);
      CursorInRange(|text|, step, c);
      CursorInRange(|text|, step, c - 1);
      CursorInRange(|text|, step, 1);
    }
  }

  /** Chunk `i` is the window starting at `i * step`, clipped at the end of the text: it is never
      empty and never longer than `size`. */
  lemma ChunkWindow(text: string, size: int, overlap: int, i: nat)
    requires 0 < size && size - overlap > 0
    requires i < |Chunks(text, size, overlap)|
    ensures var step := size - overlap; var lo := i * step;
      var hi := if lo + size <= |text| then lo + size else |text|;
      0 <= lo < hi <= |text| && Chunks(text, size, overlap)[i] == text[lo..hi]
    ensures 0 < |Chunks(text, size, overlap)[i]| <= size
  {
    var step := size - overlap;
    CursorInRange(|text|, step, i);
    MulNonNeg(i, step);
    PySliceInRange(text, i * step, i * step + size);
  }

  /** When chunk `i` is full length, chunk `i + 1` begins with the last `overlap` characters of it. */
  lemma OverlapCarried(text: string, size: int, overlap: int, i: nat)
    requires 0 <= overlap < size
    requires i + 1 < |Chunks(text, size, overlap)|
    requires |Chunks(text, size, overlap)[i]| == size
    ensures |Chunks(text, size, overlap)[i + 1]| >= overlap
    ensures Chunks(text, size, overlap)[i + 1][..overlap] == Chunks(text, size, overlap)[i][size - overlap..]
  {
    var step := size - overlap;
    ChunkWindow(text, size, overlap, i);
    ChunkWindow(text, size, overlap, i + 1);
    MulSucc(i, step);
    var lo := i * step;
    var hi := if lo + step + size <= |text| then lo + step + size else |text|;
    SlicesOverlap(text, lo, step, size, hi);
  }

  lemma SlicesOverlap(text: string, lo: int, step: int, size: int, hi: int)
    requires 0 <= lo && 0 < step <= size && lo + size <= hi <= |text|
    ensures |text[lo + step..hi]| >= size - step
    ensures text[lo + step..hi][..size - step] == text[lo..lo + size][step..]
  {
  }

  /** The first `k` characters of every chunk, concatenated. */
  function Heads(chunks: seq<string>, k: nat): string {
    if chunks == [] then [] else Prefix(chunks[0], k) + Heads(chunks[1..], k)
  }

  /** The window at `lo + step` of a text is the window at `lo` of the text after its first
      `step` characters. */
  lemma WindowShift(text: string, size: int, step: int, lo: int)
    requires 0 < step <= size && 0 <= lo < |text| - step
    ensures PySlice(text, lo + step, lo + step + size) == PySlice(text[step..], lo, lo + size)
  {
    PySliceInRange(text, lo + step, lo + step + size);
    PySliceInRange(text[step..], lo, lo + size);
  }

  /** Chunk `i` of a non-empty text, read off the closed form. */
  lemma ChunkAt(text: string, size: int, overlap: int, i: nat)
    requires size - overlap > 0 && |text| > 0 && i < ChunkCount(|text|, size - overlap)
    ensures |Chunks(text, size, overlap)| == ChunkCount(|text|, size - overlap)
    ensures Chunks(text, size, overlap)[i] == PySlice(text, i * (size - overlap), i * (size - overlap) + size)
  {
  }

  /** Chunk `i` of the text after its first `step` characters is chunk `i + 1` of the text. */
  lemma ChunkShiftAt(text: string, size: int, overlap: int, i: nat)
    requires 0 <= overlap < size && |text| > size - overlap
    requires i < |Chunks(text[size - overlap..], size, overlap)|
    ensures |Chunks(text, size, overlap)| == 1 + |Chunks(text[size - overlap..], size, overlap)|
    ensures Chunks(text[size - overlap..], size, overlap)[i] == Chunks(text, size, overlap)[i + 1]
  {
    var step := size - overlap;
    var n := |text|;
    assert ChunkCount(n, step) == 1 + ChunkCount(n - step, step);
    ChunkAt(text[step..], size, overlap, i);
    ChunkAt(text, size, overlap, i + 1);
    CursorInRange(n - step, step, i);
    MulSucc(i, step);
    MulNonNeg(i, step);
    var lo := i * step;
    WindowShift(text, size, step, lo);
  }

  /** A sequence is its first element followed by the sequence of the others. */
  lemma Uncons<T>(cs: seq<T>, first: T, rest: seq<T>)
    requires |cs| == 1 + |rest| && cs[0] == first
    requires forall i :: 0 <= i < |rest| ==> rest[i] == cs[i + 1]
    ensures cs == [first] + rest
  {
  }

  /** Peeling off the first window: the rest of the chunks are the chunks of the text after `step`. */
  lemma ChunksShift(text: string, size: int, overlap: int)
    requires 0 <= overlap < size && |text| > 0
    ensures var step := size - overlap;
      Chunks(text, size, overlap) ==
        [Prefix(text, size)] + (if |text| > step then Chunks(text[step..], size, overlap) else [])
  {
    var step := size - overlap;
    var cs := Chunks(text, size, overlap);
    PySliceInRange(text, 0, size);
    assert cs[0] == Prefix(text, size);
    if |text| > step {
      var rest := Chunks(text[step..], size, overlap);
      forall i | 0 <= i < |rest| ensures rest[i] == cs[i + 1] {
        ChunkShiftAt(text, size, overlap, i);
      }
      assert ChunkCount(|text|, step) == 1 + ChunkCount(|text| - step, step);
      Uncons(cs, Prefix(text, size), rest);
    } else {
      assert ChunkCount(|text| - step, step) == 0;
      Uncons(cs, Prefix(text, size), []);
    }
  }

  /** Round trip: the first `size - overlap` characters of each chunk, concatenated, rebuild the text. */
  lemma {:induction false} ChunksRoundTrip(text: string, size: int, overlap: int)
    requires 0 <= overlap < size
    ensures Heads(Chunks(text, size, overlap), size - overlap) == text
    decreases |text|
  {
    var step := size - overlap;
    if |text| > 0 {
      ChunksShift(text, size, overlap);
      var cs := Chunks(text, size, overlap);
      assert cs[1..] == if |text| > step then Chunks(text[step..], size, overlap) else [];
      if |text| > step {
        ChunksRoundTrip(text[step..], size, overlap);
        assert Prefix(Prefix(text, size), step) == text[..step];
        assert text == text[..step] + text[step..];
      } else {
        assert Prefix(Prefix(text, size), step) == text;
      }
    }
  }

  /** With `size <= overlap` the cursor never advances: after any number of iterations it is still
      below the length of a non-empty text, so the loop does not terminate. */
  lemma CursorStalls(n: int, size: int, overlap: int, k: nat)
    requires size - overlap <= 0 && n > 0
    ensures k * (size - overlap) < n
  {
  }

  /** The worked example: chunk_text("ABCDEFGHIJ", 4, 2). */
  lemma ChunkExample()
    ensures Chunks("ABCDEFGHIJ", 4, 2) == ["ABCD", "CDEF", "EFGH", "GHIJ", "IJ"]
  {
    assert ChunkCount(10, 2) == 5 by {
      assert ChunkCount(2, 2) == 1 + ChunkCount(0, 2);
      assert ChunkCount(4, 2) == 1 + ChunkCount(2, 2);
      assert ChunkCount(6, 2) == 1 + ChunkCount(4, 2);
      assert ChunkCount(8, 2) == 1 + ChunkCount(6, 2);
    }
    var t := "ABCDEFGHIJ";
    var cs := Chunks(t, 4, 2);
    assert cs[0] == PySlice(t, 0, 4) == t[0..4] == "ABCD";
    assert cs[1] == PySlice(t, 2, 6) == t[2..6] == "CDEF";
    assert cs[2] == PySlice(t, 4, 8) == t[4..8] == "EFGH";
    assert cs[3] == PySlice(t, 6, 10) == t[6..10] == "GHIJ";
    assert cs[4] == PySlice(t, 8, 12) == t[8..10] == "IJ";
    assert |cs| == 5;
    assert cs == [cs[0], cs[1], cs[2], cs[3], cs[4]];
  }

  /** With the default parameters a 450-character text is NOT one chunk: the cursor moves to 400,
      which is still inside the text, so a second chunk holds its last 50 characters. */
  lemma ShortTextGivesTwoChunks(text: string)
    requires |text| == 450
    ensures Chunks(text, DefaultChunkSize, DefaultChunkOverlap) == [text, text[400..]]
  {
    assert ChunkCount(450, 400) == 2 by {
      assert ChunkCount(50, 400) == 1 + ChunkCount(-350, 400);
    }
    var cs := Chunks(text, DefaultChunkSize, DefaultChunkOverlap);
    assert cs[0] == PySlice(text, 0, 500) == text;
    assert cs[1] == PySlice(text, 400, 900) == text[400..];
  }
}
