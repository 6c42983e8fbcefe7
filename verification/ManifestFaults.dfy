/** Which error each of the manifest's checks reports: always that of the first thing wrong. */
module ManifestFaults {
  import opened Basics
  import opened Manifests
  import opened ManifestTheorems

  /** What is wrong with file `i`, whose chunks should follow those of the files before it. */
  ghost predicate EntryFault(m: Manifest, i: nat, e: ManifestError)
    requires i < |m.files|
  {
    var f := m.files[i];
    var end := f.chunkStart + f.chunkCount;
    if f.chunkStart != CountSum(m.files[..i]) then e == Invalid(RangesMustTile)
    else if f.chunkCount == 0 && f.size != 0 then e == Invalid(NonEmptyFileWithoutChunks)
    else if end > U64_MAX then e == Invalid(RangeOverflows)
    else if end > |m.chunks| then e == Invalid(RangeOutOfBounds)
    else e == SizeMismatch(Clamp(LengthSum(m.chunks[f.chunkStart..end])), f.size) && e.got != e.expected
  }

  /** File `i` is the first that does not fit, and `e` is what is wrong with it. */
  ghost predicate FirstEntryFault(m: Manifest, i: nat, e: ManifestError) {
    i < |m.files| && EntryFault(m, i, e) && forall j :: 0 <= j < i ==> EntryFits(m, j)
  }

  lemma {:induction false} EntriesFault(m: Manifest, n: nat)
    requires n <= |m.files| && CheckEntries(m, n).Err?
    ensures exists i: nat :: i < n && FirstEntryFault(m, i, CheckEntries(m, n).error)
  {
    hide LengthSum, CountSum;
    CheckEntriesMeaning(m, n - 1);
    if CheckEntries(m, n - 1).Err? {
      EntriesFault(m, n - 1);
    } else {
      assert FirstEntryFault(m, n - 1, CheckEntries(m, n).error);
    }
  }

  /** Exactly what validation reports: the declared total first, then the first file that does not
      fit, then chunks left over, then the sum of the file sizes. */
  lemma ValidateFault(m: Manifest)
    requires Validate(m).Err?
    ensures var e := Validate(m).error;
      if Clamp(LengthSum(m.chunks)) != m.totalSize then e == SizeMismatch(Clamp(LengthSum(m.chunks)), m.totalSize)
      else if !forall i :: 0 <= i < |m.files| ==> EntryFits(m, i) then exists i: nat :: FirstEntryFault(m, i, e)
      else if CountSum(m.files) != |m.chunks| then e == Invalid(RangesMustTile)
      else e == SizeMismatch(Clamp(SizeSum(m.files)), m.totalSize)
  {
    hide LengthSum, SizeSum, CheckEntries, EntryFits, CountSum;
    CheckEntriesMeaning(m, |m.files|);
    assert m.files[..|m.files|] == m.files;
    if Clamp(LengthSum(m.chunks)) == m.totalSize && CheckEntries(m, |m.files|).Err? {
      EntriesFault(m, |m.files|);
    }
  }

  /** Chunk `i` is supplied with its hash, under a consistent root. */
  ghost predicate GoodChunk(h: HashFn, m: Manifest, fetch: Fetch, i: nat)
    requires i < |m.chunks|
  {
    RootConsistent(h, m) && fetch(m.chunks[i].hash).Some? && h(fetch(m.chunks[i].hash).value) == m.chunks[i].hash
  }

  ghost predicate FirstBad(h: HashFn, m: Manifest, fetch: Fetch, lo: nat, hi: nat, i: nat)
    requires hi <= |m.chunks|
  {
    lo <= i < hi && !GoodChunk(h, m, fetch, i) && forall j :: lo <= j < i ==> GoodChunk(h, m, fetch, j)
  }

  lemma GoodIff(h: HashFn, m: Manifest, fetch: Fetch, i: nat)
    requires i < |m.chunks|
    ensures FetchChunk(h, m, fetch, i) ==
      if GoodChunk(h, m, fetch, i) then Ok(fetch(m.chunks[i].hash).value) else Err(ManifestError.BadChunk(i))
  {
    hide VerifyChunk, RootConsistent;
    if fetch(m.chunks[i].hash).Some? {
      VerifyChunkIsCheap(h, m, i, fetch(m.chunks[i].hash).value);
    }
  }

  /** Collecting a range fails exactly when some chunk of it is bad, and reports the first. */
  lemma {:induction false} CollectFault(h: HashFn, m: Manifest, fetch: Fetch, lo: nat, hi: nat)
    requires lo <= hi <= |m.chunks|
    ensures var r := Collect(h, m, fetch, lo, hi);
      && (r.Ok? <==> forall i :: lo <= i < hi ==> GoodChunk(h, m, fetch, i))
      && (r.Err? ==> exists i: nat :: FirstBad(h, m, fetch, lo, hi, i) && r.error == ManifestError.BadChunk(i))
    decreases hi
  {
    hide FetchChunk, GoodChunk;
    if lo < hi {
      CollectFault(h, m, fetch, lo, hi - 1);
      GoodIff(h, m, fetch, hi - 1);
      var before := hi - 1;
      var r := Collect(h, m, fetch, lo, before);
      if i: nat :| FirstBad(h, m, fetch, lo, before, i) && r == Err(ManifestError.BadChunk(i)) {
        assert FirstBad(h, m, fetch, lo, hi, i);
      } else if !GoodChunk(h, m, fetch, before) {
        assert FirstBad(h, m, fetch, lo, hi, before);
      }
    }
  }

  /** What reconstructing the stream reports: what validation does, then the first bad chunk, then a
      wrong total. */
  lemma ReconstructFault(h: HashFn, m: Manifest, fetch: Fetch)
    requires Reconstruct(h, m, fetch).Err?
    ensures var e, n := Reconstruct(h, m, fetch).error, |m.chunks|;
      if Validate(m).Err? then e == Validate(m).error
      else if !forall i :: 0 <= i < n ==> GoodChunk(h, m, fetch, i)
      then exists i: nat :: FirstBad(h, m, fetch, 0, n, i) && e == ManifestError.BadChunk(i)
      else Collect(h, m, fetch, 0, n).Ok? && e == SizeMismatch(|Collect(h, m, fetch, 0, n).value|, m.totalSize)
  {
    hide Validate, Collect, GoodChunk;
    CollectFault(h, m, fetch, 0, |m.chunks|);
  }

  /** What is wrong with file `k` of a reconstruction: its first bad chunk, or its size. */
  ghost predicate FileFault(h: HashFn, m: Manifest, fetch: Fetch, k: nat, e: ManifestError)
    requires k < |m.files|
  {
    var f := m.files[k];
    var lo, hi := f.chunkStart, f.chunkStart + f.chunkCount;
    && hi <= |m.chunks|
    && if !forall i :: lo <= i < hi ==> GoodChunk(h, m, fetch, i)
       then exists i: nat :: FirstBad(h, m, fetch, lo, hi, i) && e == ManifestError.BadChunk(i)
       else
         && Collect(h, m, fetch, lo, hi).Ok? && e == SizeMismatch(|Collect(h, m, fetch, lo, hi).value|, f.size)
         && e.got != e.expected
  }

  ghost predicate FirstFileFault(h: HashFn, m: Manifest, fetch: Fetch, k: nat, e: ManifestError) {
    && k < |m.files| && FileFault(h, m, fetch, k, e)
    && forall j :: 0 <= j < k ==> CollectFile(h, m, fetch, m.files[j]).Ok?
  }

  lemma {:induction false} FilesFault(h: HashFn, m: Manifest, fetch: Fetch, n: nat)
    requires n <= |m.files| && forall k :: 0 <= k < n ==> m.files[k].chunkStart + m.files[k].chunkCount <= |m.chunks|
    ensures CollectFiles(h, m, fetch, n).Ok? ==> forall k :: 0 <= k < n ==> CollectFile(h, m, fetch, m.files[k]).Ok?
    ensures CollectFiles(h, m, fetch, n).Err? ==>
      exists k: nat :: k < n && FirstFileFault(h, m, fetch, k, CollectFiles(h, m, fetch, n).error)
  {
    hide Collect, GoodChunk, FirstBad;
    if n > 0 {
      FilesFault(h, m, fetch, n - 1);
      var f := m.files[n - 1];
      CollectFault(h, m, fetch, f.chunkStart, f.chunkStart + f.chunkCount);
      if CollectFiles(h, m, fetch, n - 1).Ok? && CollectFile(h, m, fetch, f).Err? {
        assert FirstFileFault(h, m, fetch, n - 1, CollectFile(h, m, fetch, f).error);
      }
    }
  }

  /** When the first files come out, all their chunks are good, and those are all before the next. */
  lemma {:induction false} GoodBefore(h: HashFn, m: Manifest, fetch: Fetch, k: nat)
    requires Tiled(m) && k <= |m.files| && forall j :: 0 <= j < k ==> CollectFile(h, m, fetch, m.files[j]).Ok?
    ensures CountSum(m.files[..k]) <= |m.chunks|
    ensures forall i :: 0 <= i < CountSum(m.files[..k]) ==> GoodChunk(h, m, fetch, i)
  {
    hide Collect, GoodChunk, LengthSum, SizeSum;
    if k > 0 {
      var f := m.files[k - 1];
      assert m.files[..k][..k - 1] == m.files[..k - 1] && EntryFits(m, k - 1);
      GoodBefore(h, m, fetch, k - 1);
      CollectFault(h, m, fetch, f.chunkStart, f.chunkStart + f.chunkCount);
    }
  }

  /** What reconstructing file by file reports: what validation does, then what is wrong with the
      first file that does not come out. */
  lemma ReconstructFilesFault(h: HashFn, m: Manifest, fetch: Fetch)
    requires ReconstructFiles(h, m, fetch).Err?
    ensures var e := ReconstructFiles(h, m, fetch).error;
      if Validate(m).Err? then e == Validate(m).error else exists k: nat :: FirstFileFault(h, m, fetch, k, e)
  {
    hide Validate, CollectFiles, Tiled, FirstFileFault;
    ValidateMeaning(m);
    if Validate(m).Ok? {
      TiledInBounds(m);
      FilesFault(h, m, fetch, |m.files|);
    }
  }

  lemma TiledInBounds(m: Manifest)
    requires Tiled(m)
    ensures forall k :: 0 <= k < |m.files| ==> m.files[k].chunkStart + m.files[k].chunkCount <= |m.chunks|
  {
    hide LengthSum, SizeSum, CountSum;
    forall k | 0 <= k < |m.files|
      ensures m.files[k].chunkStart + m.files[k].chunkCount <= |m.chunks|
    {
      assert EntryFits(m, k);
    }
  }

  /** Splitting refuses a stream of another length, then what validation refuses, then sizes whose sum
      saturated, and nothing else. */
  lemma SplitFault(m: Manifest, data: Bytes)
    ensures SplitStream(m, data).Err? <==> |data| != m.totalSize || Validate(m).Err? || SizeSum(m.files) > U64_MAX
    ensures SplitStream(m, data).Err? ==>
      SplitStream(m, data).error ==
        if |data| != m.totalSize then SizeMismatch(|data|, m.totalSize)
        else if Validate(m).Err? then Validate(m).error
        else Invalid(SizesExceedStream)
  {
    hide Validate, SplitFiles, SizeSum;
    ValidateMeaning(m);
    assert m.files[..|m.files|] == m.files;
    if |data| == m.totalSize && Validate(m).Ok? {
      SplitGoes(m, data, |m.files|);
    }
  }

  lemma {:induction false} SplitGoes(m: Manifest, data: Bytes, n: nat)
    requires n <= |m.files| && |data| <= U64_MAX
    ensures SplitFiles(m, data, n).Ok? <==> SizeSum(m.files[..n]) <= |data|
    ensures SplitFiles(m, data, n).Err? ==> SplitFiles(m, data, n).error == Invalid(SizesExceedStream)
  {
    if n > 0 {
      assert m.files[..n][..n - 1] == m.files[..n - 1];
      SplitGoes(m, data, n - 1);
    }
  }
}
