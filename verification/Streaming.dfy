/** Bounded-memory readers of row streams: the Trino fetch loop and the Spark error plan. */
module Streaming {
  import opened Text

  function Min(a: nat, b: nat): (m: nat) { if a < b then a else b }

  /** What a bounded sample of a stream is: a prefix, the full count, and whether rows were dropped. */
  datatype Sample<T> = Sample(rows: seq<T>, count: nat, truncated: bool)

  function Bounded<T>(rows: seq<T>, limit: nat): (s: Sample<T>) {
    Sample(rows[..Min(|rows|, limit)], |rows|, |rows| > limit)
  }

  /** The rows a cursor delivers: its batches up to the first empty one. */
  function Fetched<T>(batches: seq<seq<T>>): (rows: seq<T>) {
    if batches == [] || batches[0] == [] then [] else batches[0] + Fetched(batches[1..])
  }

  /** Taking what fits of the next batch extends the bounded sample. */
  lemma BoundedExtends<T>(rows: seq<T>, batch: seq<T>, limit: nat)
    requires batch != []
    ensures var sample := Bounded(rows, limit).rows;
            Bounded(rows + batch, limit).rows ==
            if |sample| < limit then sample + batch[..Min(|batch|, limit - |sample|)] else sample
    ensures Bounded(rows + batch, limit).truncated <==>
            || Bounded(rows, limit).truncated || |Bounded(rows, limit).rows| == limit
            || |batch| > limit - |Bounded(rows, limit).rows|
  {
  }

  lemma FetchedStep<T>(batches: seq<seq<T>>, k: nat, seen: seq<T>)
    requires k < |batches| && batches[k] != [] && Fetched(batches) == seen + Fetched(batches[k..])
    ensures Fetched(batches) == (seen + batches[k]) + Fetched(batches[k + 1..])
  {
    assert batches[k..][1..] == batches[k + 1..] && batches[k..][0] == batches[k];
    assert Fetched(batches[k..]) == batches[k] + Fetched(batches[k + 1..]);
    hide Fetched;
    assert seen + (batches[k] + Fetched(batches[k + 1..])) == (seen + batches[k]) + Fetched(batches[k + 1..]);
  }

  lemma FetchedEnd<T>(batches: seq<seq<T>>, k: nat, seen: seq<T>)
    requires k <= |batches| && (k < |batches| ==> batches[k] == []) && Fetched(batches) == seen + Fetched(batches[k..])
    ensures Fetched(batches) == seen
  {
    assert seen + [] == seen;
  }

  /** One turn of either loop: what it makes of the sample so far is the sample of the rows so far. */
  lemma NextSample<T>(rows: seq<T>, batch: seq<T>, limit: nat)
    requires batch != []
    ensures var (s, t) := (Bounded(rows, limit), Bounded(rows + batch, limit));
            && |s.rows| <= limit && t.count == s.count + |batch|
            && t.rows == (if |s.rows| < limit then s.rows + batch[..Min(|batch|, limit - |s.rows|)] else s.rows)
            && (t.truncated <==> s.truncated || |batch| > limit - |s.rows|)
  {
    BoundedExtends(rows, batch, limit);
  }

  /** However the rows are batched, the fetch loop returns the bounded sample of the stream. */
  method ExecuteQuery<T>(batches: seq<seq<T>>, configuredLimit: int) returns (result: Sample<T>)
    ensures result == Bounded(Fetched(batches), if configuredLimit > 0 then configuredLimit else 0)
  {
    var sampleLimit: nat := if configuredLimit > 0 then configuredLimit else 0;
    var sampledRows: seq<T> := [];
    var rowCount: nat := 0;
    var truncated := false;
    ghost var seen: seq<T> := [];
    var k := 0;
    assert [] + Fetched(batches) == Fetched(batches) && batches[0..] == batches;
    assert Bounded<T>([], sampleLimit) == Sample([], 0, false);
    hide Bounded, Fetched;
    while k < |batches| && batches[k] != []
      invariant k <= |batches|
      invariant Fetched(batches) == seen + Fetched(batches[k..])
      invariant Sample(sampledRows, rowCount, truncated) == Bounded(seen, sampleLimit)
    {
      var batch := batches[k];
      NextSample(seen, batch, sampleLimit);
      FetchedStep(batches, k, seen);
      seen := seen + batch;
      rowCount := rowCount + |batch|;
      if |sampledRows| < sampleLimit {
        var remainingSlots := sampleLimit - |sampledRows|;
        sampledRows := sampledRows + batch[..Min(|batch|, remainingSlots)];
        if |batch| > remainingSlots {
          truncated := true;
        }
      } else {
        truncated := true;
      }
      k := k + 1;
    }
    FetchedEnd(batches, k, seen);
    result := Sample(sampledRows, rowCount, truncated);
  }

  datatype Plan<T> = Plan(sample: Sample<T>, chunkCount: nat)

  /** The number of chunks of size `size` that hold `n` rows. */
  ghost predicate Chunks(n: nat, size: nat, count: nat) {
    if n == 0 then count == 0 else count > 0 && (count - 1) * size < n <= count * size
  }

  /** There is one such number, the rows divided by the chunk size and rounded up. */
  lemma ChunksIsCeiling(n: nat, size: nat, count: nat)
    requires size > 0
    ensures Chunks(n, size, count) <==> count == (n + size - 1) / size
  {
    var q := (n + size - 1) / size;
    var rest := (n + size - 1) % size;
    assert n + size - 1 == q * size + rest;
    assert (q - 1) * size == q * size - size;
    if count < q { Gap(size, q - 1, count); }
    if count > q { Gap(size, count - 1, q); }
  }

  lemma Gap(size: nat, a: int, b: int)
    requires size > 0 && a >= b
    ensures a * size >= b * size
  {
    assert a * size - b * size == (a - b) * size;
  }

  /** The error plan is the same bounded sample, with the rows counted in full chunks. */
  method BuildErrorManagementPlan<T>(failedRows: seq<T>, chunkSize: int, maxSamples: int) returns (r: Result<Plan<T>>)
    ensures r.Ok? <==> chunkSize > 0 && maxSamples >= 0
    ensures r.Ok? ==> r.value.sample == Bounded(failedRows, maxSamples)
    ensures r.Ok? ==> Chunks(|failedRows|, chunkSize, r.value.chunkCount)
  {
    if chunkSize <= 0 {
      return Err("chunk_size must be greater than zero");
    }
    if maxSamples < 0 {
      return Err("max_samples must be non-negative");
    }
    var sampleRows: seq<T> := [];
    var total: nat := 0;
    var chunkCount: nat := 0;
    assert failedRows[..0] == [] && Bounded<T>([], maxSamples) == Sample([], 0, false);
    hide Bounded, Chunks;
    NoChunk(chunkSize);
    while total < |failedRows|
      invariant total <= |failedRows|
      invariant total == chunkCount * chunkSize || total == |failedRows|
      invariant Chunks(total, chunkSize, chunkCount)
      invariant sampleRows == Bounded(failedRows[..total], maxSamples).rows
    {
      var size := Min(chunkSize, |failedRows| - total);
      var batch := failedRows[total..total + size];
      assert failedRows[..total + size] == failedRows[..total] + batch;
      NextSample(failedRows[..total], batch, maxSamples);
      NextChunk(total, chunkSize, chunkCount, size);
      chunkCount := chunkCount + 1;
      total := total + |batch|;
      if |sampleRows| < maxSamples {
        sampleRows := sampleRows + batch[..Min(|batch|, maxSamples - |sampleRows|)];
      }
    }
    assert failedRows[..|failedRows|] == failedRows;
    var overflowed := total > 0 && total > maxSamples;
    SampleFacts(failedRows, maxSamples);
    r := Ok(Plan(Sample(sampleRows, total, overflowed), chunkCount));
  }

  lemma NoChunk(size: nat)
    ensures Chunks(0, size, 0)
  {
  }

  lemma SampleFacts<T>(rows: seq<T>, limit: nat)
    ensures Bounded(rows, limit).count == |rows| && (Bounded(rows, limit).truncated <==> |rows| > limit)
  {
  }

  lemma NextChunk(total: nat, chunkSize: nat, count: nat, size: nat)
    requires chunkSize > 0 && 0 < size <= chunkSize && total == count * chunkSize
    ensures Chunks(total + size, chunkSize, count + 1)
    ensures size == chunkSize ==> total + size == (count + 1) * chunkSize
  {
    assert (count + 1) * chunkSize == count * chunkSize + chunkSize;
  }
}
