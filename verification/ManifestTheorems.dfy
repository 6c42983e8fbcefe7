/** What validation guarantees, that the cheap chunk check equals the Merkle one, and that the
    three reconstruction routes agree. */
module ManifestTheorems {
  import opened Basics
  import opened Merkle
  import opened Manifests
  import MerkleTheorems

  /** Fast check equals slow check, for every manifest, index and bytes: rebuilding the tree for
      one chunk tells no more than one root check plus a hash comparison. */
  lemma VerifyChunkIsCheap(h: HashFn, m: Manifest, index: nat, bytes: Bytes)
    ensures VerifyChunk(h, m, index, bytes) <==> RootConsistent(h, m) && ChunkHashOk(h, m, index, bytes)
  {
    hide Root, Proof, Verify;
    if index < |m.chunks| {
      MerkleTheorems.ProofComplete(h, Hashes(m.chunks), index, m.root);
    }
  }

  // ---- validation, declaratively ----

  ghost function CountSum(files: seq<FileEntry>): nat {
    if files == [] then 0 else CountSum(files[..|files| - 1]) + files[|files| - 1].chunkCount
  }

  /** File `i` owns the chunks right after those of the files before it, and they back its size. */
  ghost predicate EntryFits(m: Manifest, i: nat)
    requires i < |m.files|
  {
    var f := m.files[i];
    && f.chunkStart == CountSum(m.files[..i])
    && (f.chunkCount == 0 ==> f.size == 0)
    && f.chunkStart + f.chunkCount <= Min(|m.chunks|, U64_MAX)
    && Clamp(LengthSum(m.chunks[f.chunkStart..f.chunkStart + f.chunkCount])) == f.size
  }

  ghost predicate Tiled(m: Manifest) {
    && Clamp(LengthSum(m.chunks)) == m.totalSize == Clamp(SizeSum(m.files))
    && CountSum(m.files) == |m.chunks|
    && forall i :: 0 <= i < |m.files| ==> EntryFits(m, i)
  }

  lemma {:induction false} CheckEntriesMeaning(m: Manifest, n: nat)
    requires n <= |m.files|
    ensures CheckEntries(m, n).Ok? <==> forall i :: 0 <= i < n ==> EntryFits(m, i)
    ensures CheckEntries(m, n).Ok? ==> CheckEntries(m, n).value == CountSum(m.files[..n])
  {
    hide LengthSum;
    if n > 0 {
      CheckEntriesMeaning(m, n - 1);
      assert m.files[..n][..n - 1] == m.files[..n - 1];
      assert EntryFits(m, n - 1) <==>
        m.files[n - 1].chunkStart == CountSum(m.files[..n - 1])
        && CheckEntry(m, m.files[n - 1], CountSum(m.files[..n - 1])).Ok?;
    }
  }

  /** The loop with its cursor and saturating counters accepts exactly the tiled manifests. */
  lemma ValidateMeaning(m: Manifest)
    ensures Validate(m).Ok? <==> Tiled(m)
  {
    hide LengthSum, SizeSum, CheckEntries;
    CheckEntriesMeaning(m, |m.files|);
    assert m.files[..|m.files|] == m.files;
  }

  lemma {:induction false} LengthSumAppend(a: seq<ChunkRef>, b: seq<ChunkRef>)
    ensures LengthSum(a + b) == LengthSum(a) + LengthSum(b)
  {
    if b == [] {
      EmptyTail(a);
    } else {
      LengthSumAppend(a, b[..|b| - 1]);
      assert (a + b)[..|a + b| - 1] == a + b[..|b| - 1];
    }
  }

  lemma SliceLengthSum(chunks: seq<ChunkRef>, lo: nat, hi: nat)
    requires lo <= hi <= |chunks|
    ensures LengthSum(chunks[lo..hi]) <= LengthSum(chunks)
  {
    LengthSumAppend(chunks[..lo], chunks[lo..hi]);
    LengthSumAppend(chunks[..hi], chunks[hi..]);
    assert chunks[..lo] + chunks[lo..hi] == chunks[..hi];
    assert chunks[..hi] + chunks[hi..] == chunks;
  }

  /** Below the saturation point nothing was clamped: totals and file sizes are exact sums. */
  lemma ValidSumsExact(m: Manifest)
    requires Validate(m).Ok? && m.totalSize < U64_MAX
    ensures LengthSum(m.chunks) == m.totalSize == SizeSum(m.files)
    ensures forall f :: f in m.files ==>
      f.chunkStart + f.chunkCount <= |m.chunks|
        && LengthSum(m.chunks[f.chunkStart..f.chunkStart + f.chunkCount]) == f.size
  {
    hide LengthSum, SizeSum, Validate;
    ValidateMeaning(m);
    forall f | f in m.files
      ensures f.chunkStart + f.chunkCount <= |m.chunks|
      ensures LengthSum(m.chunks[f.chunkStart..f.chunkStart + f.chunkCount]) == f.size
    {
      var i :| 0 <= i < |m.files| && m.files[i] == f;
      assert EntryFits(m, i);
      SliceLengthSum(m.chunks, f.chunkStart, f.chunkStart + f.chunkCount);
    }
  }

  // ---- the three routes ----

  ghost function Contents(files: seq<File>): Bytes {
    if files == [] then [] else Contents(files[..|files| - 1]) + files[|files| - 1].1
  }

  lemma {:induction false} CollectJoin(h: HashFn, m: Manifest, fetch: Fetch, lo: nat, mid: nat, hi: nat)
    requires lo <= mid <= hi <= |m.chunks|
    requires Collect(h, m, fetch, lo, mid).Ok? && Collect(h, m, fetch, mid, hi).Ok?
    ensures Collect(h, m, fetch, lo, hi)
      == Ok(Collect(h, m, fetch, lo, mid).value + Collect(h, m, fetch, mid, hi).value)
    decreases hi
  {
    hide FetchChunk;
    var a := Collect(h, m, fetch, lo, mid).value;
    if mid == hi {
      EmptyTail(a);
    } else {
      CollectJoin(h, m, fetch, lo, mid, hi - 1);
      ConcatAssoc(a, Collect(h, m, fetch, mid, hi - 1).value, FetchChunk(h, m, fetch, hi - 1).value);
    }
  }

  /** Files collected one by one are the stream collected in one go, cut at the declared sizes. */
  lemma {:induction false} FilesAreStream(h: HashFn, m: Manifest, fetch: Fetch, n: nat)
    requires n <= |m.files|
    requires CheckEntries(m, n).Ok? && CollectFiles(h, m, fetch, n).Ok?
    ensures Collect(h, m, fetch, 0, CheckEntries(m, n).value) == Ok(Contents(CollectFiles(h, m, fetch, n).value))
    ensures |Contents(CollectFiles(h, m, fetch, n).value)| == SizeSum(m.files[..n])
  {
    hide FetchChunk, LengthSum;
    if n > 0 {
      FilesAreStream(h, m, fetch, n - 1);
      var files := CollectFiles(h, m, fetch, n).value;
      assert files[..n - 1] == CollectFiles(h, m, fetch, n - 1).value;
      assert m.files[..n][..n - 1] == m.files[..n - 1];
      hide Collect;
      CollectJoin(h, m, fetch, 0, CheckEntries(m, n - 1).value, CheckEntries(m, n).value);
    }
  }

  lemma {:induction false} SplitUndoes(m: Manifest, files: seq<File>, rest: Bytes, n: nat)
    requires n == |files| <= |m.files|
    requires forall i :: 0 <= i < n ==> files[i].0 == m.files[i].path && |files[i].1| == m.files[i].size
    requires SizeSum(m.files[..n]) <= U64_MAX
    ensures SizeSum(m.files[..n]) == |Contents(files)|
    ensures SplitFiles(m, Contents(files) + rest, n) == Ok(files)
  {
    if n > 0 {
      var before, last := files[..n - 1], files[n - 1];
      assert m.files[..n][..n - 1] == m.files[..n - 1];
      SplitUndoes(m, before, last.1 + rest, n - 1);
      var a := Contents(before);
      ConcatAssoc(a, last.1, rest);
      MiddleSlice(a, last.1, rest);
      assert files == before + [last];
    }
  }

  lemma MiddleSlice<T>(a: seq<T>, b: seq<T>, c: seq<T>)
    ensures (a + b + c)[|a|..|a| + |b|] == b
  {
  }

  lemma {:induction false} CollectedFilesMatch(h: HashFn, m: Manifest, fetch: Fetch, n: nat)
    requires n <= |m.files| && CollectFiles(h, m, fetch, n).Ok?
    ensures var files := CollectFiles(h, m, fetch, n).value;
      forall i :: 0 <= i < n ==> files[i].0 == m.files[i].path && |files[i].1| == m.files[i].size
  {
    hide Collect;
    if n > 0 {
      CollectedFilesMatch(h, m, fetch, n - 1);
    }
  }

  /** Whenever the file-by-file route succeeds, the whole-stream route succeeds with the same bytes
      if and only if the declared sizes sum to a u64, and then splitting that stream gives the same
      files back. Past that point the saturated total betrays itself as a size mismatch. */
  lemma RoutesAgree(h: HashFn, m: Manifest, fetch: Fetch, files: seq<File>)
    requires ReconstructFiles(h, m, fetch) == Ok(files)
    ensures Reconstruct(h, m, fetch) == Ok(Contents(files)) <==> SizeSum(m.files) <= U64_MAX
    ensures SizeSum(m.files) <= U64_MAX ==> SplitStream(m, Contents(files)) == Ok(files)
    ensures SizeSum(m.files) > U64_MAX ==> Reconstruct(h, m, fetch) == Err(SizeMismatch(SizeSum(m.files), U64_MAX))
  {
    var n := |m.files|;
    assert m.files[..n] == m.files;
    FilesAreStream(h, m, fetch, n);
    hide Collect, CollectFiles, CheckEntries, LengthSum;
    if SizeSum(m.files) <= U64_MAX {
      CollectedFilesMatch(h, m, fetch, n);
      SplitUndoes(m, files, [], n);
      EmptyTail(Contents(files));
    }
  }
}
