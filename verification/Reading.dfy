/** When chunks can be read out of a store: exactly which ones, in terms of the files it is made of. */
module Reading {
  import opened Basics
  import opened IndexLog
  import opened RefLog
  import opened StoreSpec
  import opened StoreInvariant
  import opened StoreSteps
  import opened StoreTheorems
  import opened Manifests
  import opened ManifestTheorems
  import opened DeclaredLengths

  /** What `export` asks for each chunk: a store error reads as an absent chunk. */
  function StoreFetch(h: HashFn, d: Disk, s: Handle, sources: Sources): Fetch {
    (x: Digest) =>
      match GetStep(h, d, s, sources, x).0
      case Ok(found) => found
      case Err(_) => None
  }

  ghost predicate RefIntact(h: HashFn, loc: RefLoc, sources: Sources, x: Digest) {
    && loc.path in sources
    && var read := ReadRange(sources[loc.path], loc.offset, loc.length);
       read.Some? && h(read.value) == x
  }

  /** The one place a chunk would be read from holds bytes with its hash: the pack, if it was packed;
      else the legacy object, if there is one; else the file the handle has a reference to. */
  ghost predicate Readable(h: HashFn, d: Disk, s: Handle, sources: Sources, x: Digest) {
    if x in LogKeys(PackedLog(d)) then exists e :: e in PackedLog(d) && e.hash == x && Sound(h, d.packs, e)
    else if x in d.objects then h(d.objects[x]) == x
    else x in s.refs && RefIntact(h, s.refs[x], sources, x)
  }

  lemma NotPacked(h: HashFn, d: Disk, s: Handle, sources: Sources, log: seq<IndexEntry>, torn: Bytes, x: Digest)
    requires DiskInv(h, d, log, torn) && HandleInv(d, s, log) && x !in LogKeys(log)
    ensures GetStep(h, d, s, sources, x).0 ==
      if x in d.objects then (if h(d.objects[x]) != x then Err(Corrupt(x)) else Ok(Some(d.objects[x])))
      else ReadReference(h, s, sources, x)
  {
    IndexWithinLog(d, s, log);
    RefreshReaches(h, d, s, log, torn);
    InsertKeys(log, map[]);
    hide RefreshIndex, ReadReference, DiskInv, HandleInv, InsertAll;
  }

  lemma ReferenceReads(h: HashFn, s: Handle, sources: Sources, x: Digest)
    ensures (exists b :: ReadReference(h, s, sources, x) == Ok(Some(b))) <==>
      x in s.refs && RefIntact(h, s.refs[x], sources, x)
  {
  }

  /** `get` returns a chunk if and only if it is readable, at any cursor of the handle. */
  lemma ReadsIff(h: HashFn, d: Disk, s: Handle, sources: Sources, log: seq<IndexEntry>, torn: Bytes, x: Digest)
    requires DiskInv(h, d, log, torn) && HandleInv(d, s, log)
    ensures Reads(h, d, s, sources, x) <==> Readable(h, d, s, sources, x)
    ensures StoreFetch(h, d, s, sources)(x).Some? <==> Readable(h, d, s, sources, x)
  {
    hide PackedLog, GetStep, ReadReference, HandleInv, RefIntact, Region, Held;
    PackedLogIs(h, d, log, torn);
    FetchIsReads(h, d, s, sources, x);
    if x in LogKeys(log) {
      var i :| 0 <= i < |log| && log[i].hash == x;
      PackedIsFound(h, d, s, sources, log, torn, i);
      assert forall e :: e in log && e.hash == x ==> e == log[i] by {
        forall e | e in log && e.hash == x
          ensures e == log[i]
        {
          OneEntryPerChunk(log, i, e);
        }
      }
    } else {
      NotPacked(h, d, s, sources, log, torn, x);
      ReferenceReads(h, s, sources, x);
    }
  }

  lemma FetchIsReads(h: HashFn, d: Disk, s: Handle, sources: Sources, x: Digest)
    ensures StoreFetch(h, d, s, sources)(x).Some? <==> Reads(h, d, s, sources, x)
    ensures StoreFetch(h, d, s, sources)(x).Some? ==> h(StoreFetch(h, d, s, sources)(x).value) == x
    ensures Reads(h, d, s, sources, x) <==>
      GetStep(h, d, s, sources, x).0.Ok? && GetStep(h, d, s, sources, x).0.value.Some?
  {
    hide GetStep;
    var got := GetStep(h, d, s, sources, x).0;
    if got.Ok? && got.value.Some? {
      GetIsGenuine(h, d, s, sources, x, got.value.value);
    }
  }

  lemma OneEntryPerChunk(log: seq<IndexEntry>, i: nat, e: IndexEntry)
    requires AllApart(log) && i < |log| && e in log && e.hash == log[i].hash
    ensures e == log[i]
  {
    var j :| 0 <= j < |log| && log[j] == e;
  }

  ghost predicate AllReadable(h: HashFn, d: Disk, s: Handle, sources: Sources, m: Manifest) {
    forall i :: 0 <= i < |m.chunks| ==> Readable(h, d, s, sources, m.chunks[i].hash)
  }

  /** Collecting from a store succeeds if and only if every chunk is readable. */
  lemma CollectsIff(h: HashFn, m: Manifest, d: Disk, s: Handle, log: seq<IndexEntry>, torn: Bytes, sources: Sources)
    requires DiskInv(h, d, log, torn) && HandleInv(d, s, log) && RootConsistent(h, m)
    ensures Collect(h, m, StoreFetch(h, d, s, sources), 0, |m.chunks|).Ok? <==> AllReadable(h, d, s, sources, m)
  {
    hide DiskInv, HandleInv, RootConsistent, VerifyChunk, GetStep, Readable, Collect, StoreFetch;
    var fetch := StoreFetch(h, d, s, sources);
    forall i | 0 <= i < |m.chunks|
      ensures FetchChunk(h, m, fetch, i).Ok? <==> Readable(h, d, s, sources, m.chunks[i].hash)
    {
      ReadsIff(h, d, s, sources, log, torn, m.chunks[i].hash);
      FetchIsReads(h, d, s, sources, m.chunks[i].hash);
      if fetch(m.chunks[i].hash).Some? {
        VerifyChunkIsCheap(h, m, i, fetch(m.chunks[i].hash).value);
      }
    }
    CollectIff(h, m, fetch, |m.chunks|);
  }

  lemma {:induction false} CollectIff(h: HashFn, m: Manifest, fetch: Fetch, n: nat)
    requires n <= |m.chunks|
    ensures Collect(h, m, fetch, 0, n).Ok? <==> forall i :: 0 <= i < n ==> FetchChunk(h, m, fetch, i).Ok?
  {
    hide FetchChunk;
    if n > 0 {
      CollectIff(h, m, fetch, n - 1);
    }
  }

  /** `export` succeeds if and only if every chunk is readable and the chunks really hold as many
      bytes as the manifest declares in total. */
  lemma ExportsIff(h: HashFn, m: Manifest, d: Disk, s: Handle, log: seq<IndexEntry>, torn: Bytes, sources: Sources)
    requires DiskInv(h, d, log, torn) && HandleInv(d, s, log) && RootConsistent(h, m) && Validate(m).Ok?
    ensures Reconstruct(h, m, StoreFetch(h, d, s, sources)).Ok? <==>
      AllReadable(h, d, s, sources, m) && TrueSum(m, StoreFetch(h, d, s, sources), 0, |m.chunks|) == m.totalSize
  {
    hide DiskInv, HandleInv, RootConsistent, Validate, AllReadable, Collect, TrueSum, StoreFetch;
    var fetch := StoreFetch(h, d, s, sources);
    CollectsIff(h, m, d, s, log, torn, sources);
    if Collect(h, m, fetch, 0, |m.chunks|).Ok? {
      CollectLength(h, m, fetch, 0, |m.chunks|);
    }
  }

  /** `export_tree` succeeds if and only if every chunk is readable and every file's chunks really
      hold as many bytes as it declares. */
  lemma ExportsTreeIff(h: HashFn, m: Manifest, d: Disk, s: Handle, log: seq<IndexEntry>, torn: Bytes, sources: Sources)
    requires DiskInv(h, d, log, torn) && HandleInv(d, s, log) && RootConsistent(h, m) && Validate(m).Ok?
    ensures ReconstructFiles(h, m, StoreFetch(h, d, s, sources)).Ok? <==>
      && AllReadable(h, d, s, sources, m)
      && forall k :: 0 <= k < |m.files| ==> TrueSize(m, StoreFetch(h, d, s, sources), m.files[k])
  {
    hide DiskInv, HandleInv, RootConsistent, AllReadable, Collect, TrueSize, StoreFetch, CheckEntries, CollectFiles,
      LengthSum;
    var fetch := StoreFetch(h, d, s, sources);
    CollectsIff(h, m, d, s, log, torn, sources);
    if CollectFiles(h, m, fetch, |m.files|).Ok? {
      FilesAreStream(h, m, fetch, |m.files|);
    }
    if Collect(h, m, fetch, 0, |m.chunks|).Ok? {
      FilesNeedTrueSizes(h, m, fetch, |m.files|);
    }
  }
}
