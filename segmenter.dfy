/**
 * The segmenter (`split_audio`): decoded audio is modelled by its length in
 * milliseconds, and a chunk by the half-open interval of milliseconds it holds.
 */
module Segmenter {

  /** The chunk `audio[start:end]`, i.e. milliseconds `start <= t < end`. */
  datatype Chunk = Chunk(start: nat, end: nat)

  function Length(c: Chunk): int { c.end - c.start }

  predicate Covers(c: Chunk, t: nat) { c.start <= t < c.end }

  function Min(a: nat, b: nat): nat { if a <= b then a else b }

  /** The number of offsets `range(0, duration, chunkLength)` produces. */
  function ChunkCount(duration: nat, chunkLength: nat): nat
    requires chunkLength > 0
  {
    (duration + chunkLength - 1) / chunkLength
  }

  /** The slice taken at the k-th offset; pydub clips its end to the audio's length. */
  function ChunkAt(duration: nat, chunkLength: nat, k: nat): Chunk
  {
    Chunk(k * chunkLength, Min(k * chunkLength + chunkLength, duration))
  }

  /** The chunk list `split_audio` builds. */
  function Segment(duration: nat, chunkLength: nat): seq<Chunk>
    requires chunkLength > 0
  {
    seq(ChunkCount(duration, chunkLength), k requires 0 <= k => ChunkAt(duration, chunkLength, k))
  }

  lemma MulMono(a: int, b: int, l: nat)
    ensures a <= b ==> a * l <= b * l
  {
    assert b * l == a * l + (b - a) * l;
  }

  /** ChunkCount is the ceiling of duration / chunkLength. */
  lemma ChunkCountIsCeiling(duration: nat, chunkLength: nat)
    requires chunkLength > 0
    ensures ChunkCount(duration, chunkLength) * chunkLength >= duration
    ensures ChunkCount(duration, chunkLength) > 0 ==> (ChunkCount(duration, chunkLength) - 1) * chunkLength < duration
    ensures ChunkCount(duration, chunkLength) == 0 <==> duration == 0
  {
    var n := ChunkCount(duration, chunkLength);
    var m := duration + chunkLength - 1;
    assert m == n * chunkLength + m % chunkLength;
    assert (n - 1) * chunkLength == n * chunkLength - chunkLength;
  }

  /** The ceiling is the only count n with (n - 1) * L < D <= n * L. */
  lemma CeilingUnique(duration: nat, chunkLength: nat, n: nat)
    requires chunkLength > 0
    requires duration <= n * chunkLength
    requires n == 0 || (n - 1) * chunkLength < duration
    ensures n == ChunkCount(duration, chunkLength)
  {
    var c := ChunkCount(duration, chunkLength);
    ChunkCountIsCeiling(duration, chunkLength);
    if n < c {
      MulMono(n, c - 1, chunkLength);
    } else if c < n {
      MulMono(c, n - 1, chunkLength);
    }
  }

  /**
   * `split_audio` as the source writes it: step an offset through
   * `range(0, duration, chunkLength)` and append the slice at each offset.
   */
  method SplitAudio(duration: nat, chunkLength: nat) returns (chunks: seq<Chunk>)
    requires chunkLength > 0
    ensures chunks == Segment(duration, chunkLength)
  {
    chunks := [];
    var i: nat := 0;
    while i < duration
      invariant i == |chunks| * chunkLength
      invariant |chunks| > 0 ==> (|chunks| - 1) * chunkLength < duration
      invariant forall k :: 0 <= k < |chunks| ==> chunks[k] == ChunkAt(duration, chunkLength, k)
      decreases duration - i
    {
      chunks := chunks + [Chunk(i, Min(i + chunkLength, duration))];
      i := i + chunkLength;
    }
    CeilingUnique(duration, chunkLength, |chunks|);
  }

  /**
   * Shape of every chunk: chunk k starts at k * L and ends at
   * min((k + 1) * L, D); it is never empty; all but the last have length L and
   * the last has length between 1 and L.
   */
  lemma {:induction false} ChunkShape(duration: nat, chunkLength: nat, k: nat)
    requires chunkLength > 0
    requires k < ChunkCount(duration, chunkLength)
    ensures Segment(duration, chunkLength)[k].start == k * chunkLength
    ensures Segment(duration, chunkLength)[k].end == Min((k + 1) * chunkLength, duration)
    ensures 0 < Length(Segment(duration, chunkLength)[k]) <= chunkLength
    ensures k + 1 < ChunkCount(duration, chunkLength) ==> Length(Segment(duration, chunkLength)[k]) == chunkLength
    ensures k + 1 == ChunkCount(duration, chunkLength) ==> Segment(duration, chunkLength)[k].end == duration
  {
    var n := ChunkCount(duration, chunkLength);
    ChunkCountIsCeiling(duration, chunkLength);
    MulMono(k, n - 1, chunkLength);
    assert (k + 1) * chunkLength == k * chunkLength + chunkLength;
    if k + 1 < n {
      MulMono(k + 1, n - 1, chunkLength);
    }
  }

  /**
   * The chunks tile [0, D): the first starts at 0, each ends where the next
   * starts, and the last ends at D; an empty audio gives no chunks.
   */
  lemma Contiguous(duration: nat, chunkLength: nat)
    requires chunkLength > 0
    ensures Segment(duration, chunkLength) == [] <==> duration == 0
    ensures duration > 0 ==> Segment(duration, chunkLength)[0].start == 0
    ensures duration > 0 ==> Segment(duration, chunkLength)[|Segment(duration, chunkLength)| - 1].end == duration
    ensures forall k :: 0 <= k < |Segment(duration, chunkLength)| - 1 ==>
      Segment(duration, chunkLength)[k].end == Segment(duration, chunkLength)[k + 1].start
  {
    var n := ChunkCount(duration, chunkLength);
    ChunkCountIsCeiling(duration, chunkLength);
    if duration > 0 {
      ChunkShape(duration, chunkLength, n - 1);
    }
    forall k | 0 <= k && k + 1 < n
      ensures Segment(duration, chunkLength)[k].end == Segment(duration, chunkLength)[k + 1].start
    {
      ChunkShape(duration, chunkLength, k);
      ChunkShape(duration, chunkLength, k + 1);
    }
  }

  /** Chunks appear in increasing start order and never overlap. */
  lemma Ordered(duration: nat, chunkLength: nat, i: nat, j: nat)
    requires chunkLength > 0
    requires i < j < ChunkCount(duration, chunkLength)
    ensures Segment(duration, chunkLength)[i].end <= Segment(duration, chunkLength)[j].start
  {
    ChunkShape(duration, chunkLength, i);
    ChunkShape(duration, chunkLength, j);
    MulMono(i + 1, j, chunkLength);
  }

  lemma DivUnique(t: nat, l: nat, k: nat)
    requires l > 0
    requires k * l <= t < k * l + l
    ensures t / l == k
  {
    var q := t / l;
    assert t == q * l + t % l;
    assert (q + 1) * l == q * l + l;
    assert (k + 1) * l == k * l + l;
    MulMono(q + 1, k, l);
    MulMono(k + 1, q, l);
  }

  /**
   * Every millisecond of [0, D) lies in exactly one chunk, the one at index
   * t / L, and no chunk holds a millisecond outside [0, D).
   */
  lemma CoveredExactlyOnce(duration: nat, chunkLength: nat, t: nat)
    requires chunkLength > 0
    ensures t < duration ==>
      t / chunkLength < |Segment(duration, chunkLength)| && Covers(Segment(duration, chunkLength)[t / chunkLength], t)
    ensures forall k :: 0 <= k < |Segment(duration, chunkLength)| && Covers(Segment(duration, chunkLength)[k], t) ==>
      t < duration && k == t / chunkLength
  {
    var n := ChunkCount(duration, chunkLength);
    if t < duration {
      var q := t / chunkLength;
      assert t == q * chunkLength + t % chunkLength;
      ChunkCountIsCeiling(duration, chunkLength);
      if n <= q {
        MulMono(n, q, chunkLength);
      }
      ChunkShape(duration, chunkLength, q);
      assert (q + 1) * chunkLength == q * chunkLength + chunkLength;
    }
    forall k | 0 <= k < n && Covers(Segment(duration, chunkLength)[k], t)
      ensures t < duration && k == t / chunkLength
    {
      ChunkShape(duration, chunkLength, k);
      assert (k + 1) * chunkLength == k * chunkLength + chunkLength;
      DivUnique(t, chunkLength, k);
    }
  }

  /** Total length of a run of chunks. */
  function TotalLength(cs: seq<Chunk>): int
  {
    if cs == [] then 0 else TotalLength(cs[..|cs| - 1]) + Length(cs[|cs| - 1])
  }

  lemma {:induction false} PrefixLength(duration: nat, chunkLength: nat, k: nat)
    requires chunkLength > 0
    requires 0 < k <= ChunkCount(duration, chunkLength)
    ensures TotalLength(Segment(duration, chunkLength)[..k]) == Segment(duration, chunkLength)[k - 1].end
  {
    var s := Segment(duration, chunkLength);
    assert s[..k][..k - 1] == s[..k - 1];
    if k > 1 {
      PrefixLength(duration, chunkLength, k - 1);
      Contiguous(duration, chunkLength);
    } else {
      ChunkShape(duration, chunkLength, 0);
    }
  }

  /** The chunk lengths sum to the audio's duration. */
  lemma LengthsSumToDuration(duration: nat, chunkLength: nat)
    requires chunkLength > 0
    ensures TotalLength(Segment(duration, chunkLength)) == duration
  {
    var s := Segment(duration, chunkLength);
    var n := |s|;
    Contiguous(duration, chunkLength);
    if n > 0 {
      PrefixLength(duration, chunkLength, n);
      assert s[..n] == s;
    }
  }

  /** Audio longer than one chunk and at most two splits into a full chunk and the rest. */
  lemma TwoChunks(duration: nat, chunkLength: nat)
    requires 0 < chunkLength < duration <= 2 * chunkLength
    ensures Segment(duration, chunkLength) == [Chunk(0, chunkLength), Chunk(chunkLength, duration)]
  {
    CeilingUnique(duration, chunkLength, 2);
  }

  /** The chunk length `__main__` passes in: ten minutes. */
  const TenMinutes: nat := 10 * 60 * 1000

  /** A 25-minute recording in 10-minute chunks gives chunks of 10, 10 and 5 minutes. */
  lemma TwentyFiveMinutes()
    ensures Segment(25 * 60 * 1000, TenMinutes) ==
      [Chunk(0, TenMinutes), Chunk(TenMinutes, 2 * TenMinutes), Chunk(2 * TenMinutes, 25 * 60 * 1000)]
  {
    assert ChunkCount(25 * 60 * 1000, TenMinutes) == 3;
  }
}
