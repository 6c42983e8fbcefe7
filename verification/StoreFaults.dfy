/** Which errors the store reports, and when: `get`, `put`, `export` and `export_tree`. */
module StoreFaults {
  import opened Basics
  import opened IndexLog
  import opened RefLog
  import opened StoreSpec
  import opened StoreInvariant
  import opened StoreSteps
  import opened StoreTheorems
  import opened Manifests
  import opened ManifestTheorems
  import opened ManifestFaults
  import opened Reading
  import opened Transfer

  /** All `get` can answer about a chunk that is not packed: the object, damaged or not, and then what
      the reference leads to, which may be gone, too short, or changed. */
  lemma GetUnpacked(h: HashFn, d: Disk, s: Handle, sources: Sources, log: seq<IndexEntry>, torn: Bytes, x: Digest)
    requires DiskInv(h, d, log, torn) && HandleInv(d, s, log) && x !in LogKeys(log)
    ensures var got := GetStep(h, d, s, sources, x).0;
      if x in d.objects then got == (if h(d.objects[x]) == x then Ok(Some(d.objects[x])) else Err(Corrupt(x)))
      else if x !in s.refs || s.refs[x].path !in sources then got == Ok(None)
      else
        var loc, file := s.refs[x], sources[s.refs[x].path];
        if loc.length > 0 && loc.offset + loc.length > |file| then got == Err(Io)
        else
          var bytes := if loc.length == 0 then [] else file[loc.offset..loc.offset + loc.length];
          got == if h(bytes) == x then Ok(Some(bytes)) else Err(Corrupt(x))
  {
    hide GetStep, DiskInv, HandleInv, LogKeys;
    NotPacked(h, d, s, sources, log, torn, x);
  }

  /** And about one that is: the bytes its entry names if they hash to it, else that it is corrupt. */
  lemma GetPacked(h: HashFn, d: Disk, s: Handle, sources: Sources, log: seq<IndexEntry>, torn: Bytes, i: nat)
    requires DiskInv(h, d, log, torn) && HandleInv(d, s, log) && i < |log|
    ensures var e := log[i];
      && InBounds(d.packs, e)
      && var bytes := d.packs[e.loc.pack][e.loc.offset..e.loc.offset + e.loc.length];
         GetStep(h, d, s, sources, e.hash).0 == if h(bytes) == e.hash then Ok(Some(bytes)) else Err(Corrupt(e.hash))
  {
    hide GetStep, HasStep, DiskInv, HandleInv;
    PackedIsFound(h, d, s, sources, log, torn, i);
  }

  /** Whatever the directory looks like: a known entry whose pack is gone or ends too early is an I/O
      error, whether or not the chunk could be had elsewhere. */
  lemma GetDamaged(h: HashFn, d: Disk, s: Handle, sources: Sources, x: Digest)
    requires x in s.index
    ensures var loc, got := s.index[x], GetStep(h, d, s, sources, x).0;
      got == Err(Io) <==>
        loc.pack !in d.packs || (loc.length > 0 && loc.offset + loc.length > |d.packs[loc.pack]|)
  {
    hide RefreshIndex;
  }

  /** Which of its two errors a failing `put` reports, and that neither file but the packs is touched. */
  lemma PutError(h: HashFn, d: Disk, s: Handle, bytes: Bytes)
    requires PutStep(h, d, s, bytes).result.Err?
    ensures var p := PutStep(h, d, s, bytes);
      && p.result == Err(if s.currentSize >= PACK_ROTATE_SIZE && s.currentId >= U32_MAX then PackIdsExhausted else Io)
      && p.disk.index == d.index && p.disk.refs == d.refs && p.disk.objects == d.objects
      && (forall q :: q in d.packs ==> q in p.disk.packs && p.disk.packs[q] == d.packs[q])
  {
    PutShape(h, d, s, bytes);
    KeepsCurrent(d, s, h(bytes));
    hide PutStep, HasStep, BeforeWrite, FormatEntry;
  }

  // ---- export ----

  /** The manifest commits to chunk `i`, and it can be read. */
  ghost predicate Usable(h: HashFn, d: Disk, s: Handle, sources: Sources, m: Manifest, i: nat)
    requires i < |m.chunks|
  {
    RootConsistent(h, m) && Readable(h, d, s, sources, m.chunks[i].hash)
  }

  ghost predicate UsableUpTo(h: HashFn, d: Disk, s: Handle, sources: Sources, m: Manifest, n: nat) {
    n <= |m.chunks| && forall i :: 0 <= i < n ==> Usable(h, d, s, sources, m, i)
  }

  /** Chunk `i` is the first that cannot be used, and `e` is what the store said about it: its own
      error, or else that it is a bad chunk. */
  ghost predicate StopsAt(h: HashFn, d: Disk, s: Handle, sources: Sources, m: Manifest, i: nat, e: ExportError) {
    && UsableUpTo(h, d, s, sources, m, i) && i < |m.chunks| && !Usable(h, d, s, sources, m, i)
    && var got := GetStep(h, d, s, sources, m.chunks[i].hash).0;
       e == if got.Err? then FromStore(got.error) else FromManifest(ManifestError.BadChunk(i))
  }

  lemma GoodIffUsable(h: HashFn, m: Manifest, d: Disk, s: Handle, log: seq<IndexEntry>, torn: Bytes, sources: Sources)
    requires DiskInv(h, d, log, torn) && HandleInv(d, s, log)
    ensures forall i :: 0 <= i < |m.chunks| ==>
      (GoodChunk(h, m, StoreFetch(h, d, s, sources), i) <==> Usable(h, d, s, sources, m, i))
  {
    hide DiskInv, HandleInv, RootConsistent, Readable, GetStep, StoreFetch;
    forall i | 0 <= i < |m.chunks|
      ensures GoodChunk(h, m, StoreFetch(h, d, s, sources), i) <==> Usable(h, d, s, sources, m, i)
    {
      ReadsIff(h, d, s, sources, log, torn, m.chunks[i].hash);
      FetchIsReads(h, d, s, sources, m.chunks[i].hash);
    }
  }

  lemma ValidateBlamesNoChunk(m: Manifest)
    requires Validate(m).Err?
    ensures !Validate(m).error.BadChunk?
  {
    hide Validate, LengthSum, SizeSum, CountSum, EntryFits;
    ValidateFault(m);
  }

  /** Everything a failing `export` can report: what validation does, then the first chunk that cannot
      be used, with the store's own error if it gave one, then a wrong total. */
  lemma ExportFault(h: HashFn, m: Manifest, d: Disk, s: Handle, log: seq<IndexEntry>, torn: Bytes, sources: Sources)
    requires DiskInv(h, d, log, torn) && HandleInv(d, s, log)
    requires Reconstruct(h, m, StoreFetch(h, d, s, sources)).Err?
    ensures var r := ExportResult(h, m, d, s, sources, Reconstruct(h, m, StoreFetch(h, d, s, sources)));
      && r.Err?
      && if Validate(m).Err? then r.error == FromManifest(Validate(m).error)
         else if UsableUpTo(h, d, s, sources, m, |m.chunks|)
         then r.error.FromManifest? && r.error.reason.SizeMismatch? && r.error.reason.expected == m.totalSize
         else exists i: nat :: StopsAt(h, d, s, sources, m, i, r.error)
  {
    hide DiskInv, HandleInv, Usable, Validate, GetStep, StoreFetch, Collect, Reconstruct, GoodChunk;
    var fetch, n := StoreFetch(h, d, s, sources), |m.chunks|;
    GoodIffUsable(h, m, d, s, log, torn, sources);
    ReconstructFault(h, m, fetch);
    if Validate(m).Err? {
      ValidateBlamesNoChunk(m);
    } else if i: nat :| FirstBad(h, m, fetch, 0, n, i) && Reconstruct(h, m, fetch).error == ManifestError.BadChunk(i) {
      var r := ExportResult(h, m, d, s, sources, Reconstruct(h, m, fetch));
      assert StopsAt(h, d, s, sources, m, i, r.error);
    }
  }

  /** Everything a failing `export_tree` can report: what validation does, then the first chunk that
      cannot be used, in the same way, or the size of a file before it. */
  lemma ExportTreeFault(h: HashFn, m: Manifest, d: Disk, s: Handle, log: seq<IndexEntry>, torn: Bytes, sources: Sources)
    requires DiskInv(h, d, log, torn) && HandleInv(d, s, log)
    requires ReconstructFiles(h, m, StoreFetch(h, d, s, sources)).Err?
    ensures var r := ExportResult(h, m, d, s, sources, ReconstructFiles(h, m, StoreFetch(h, d, s, sources)));
      && r.Err?
      && if Validate(m).Err? then r.error == FromManifest(Validate(m).error)
         else
           || (exists i: nat :: StopsAt(h, d, s, sources, m, i, r.error))
           || (exists k: nat :: k < |m.files| && WrongSize(m, r.error, k)
                && UsableUpTo(h, d, s, sources, m, m.files[k].chunkStart + m.files[k].chunkCount))
  {
    hide DiskInv, HandleInv, Usable, Validate, GetStep, StoreFetch, Collect, ReconstructFiles, GoodChunk, CollectFile;
    var fetch := StoreFetch(h, d, s, sources);
    GoodIffUsable(h, m, d, s, log, torn, sources);
    ReconstructFilesFault(h, m, fetch);
    if Validate(m).Err? {
      ValidateBlamesNoChunk(m);
    } else {
      var e := ReconstructFiles(h, m, fetch).error;
      var k: nat :| FirstFileFault(h, m, fetch, k, e);
      ValidateMeaning(m);
      TiledStarts(m, k);
      GoodBefore(h, m, fetch, k);
      hide Tiled, CountSum;
      if e.SizeMismatch? {
        assert WrongSize(m, FromManifest(e), k);
      } else {
        var i: nat :| FirstBad(h, m, fetch, m.files[k].chunkStart, m.files[k].chunkStart + m.files[k].chunkCount, i)
          && e == ManifestError.BadChunk(i);
        var r := ExportResult(h, m, d, s, sources, ReconstructFiles(h, m, fetch));
        assert StopsAt(h, d, s, sources, m, i, r.error);
      }
    }
  }

  lemma TiledStarts(m: Manifest, k: nat)
    requires Tiled(m) && k < |m.files|
    ensures m.files[k].chunkStart == CountSum(m.files[..k])
  {
    hide LengthSum, SizeSum, CountSum;
    assert EntryFits(m, k);
  }

  ghost predicate WrongSize(m: Manifest, e: ExportError, k: nat)
    requires k < |m.files|
  {
    e.FromManifest? && e.reason.SizeMismatch? && e.reason.got != e.reason.expected == m.files[k].size
  }

  // ---- rotation ----

  const ROTATION: nat := 0x1000_0000

  /** The handle's idea of its pack is right, and its pack is the newest. */
  ghost predicate Accurate(d: Disk, s: Handle) {
    && s.currentId in d.packs && |d.packs[s.currentId]| == s.currentSize
    && forall p :: p in d.packs ==> p <= s.currentId
  }

  lemma OpenIsAccurate(d: Disk, d': Disk, s: Handle)
    requires Opened(d, d', s)
    ensures Accurate(d', s)
  {
    hide InsertAll, Entries, InsertRefs, References, Whole;
  }

  /** A handle that is the only one writing appends below 256 MiB, to the newest pack if that has not
      reached it and to a new one exactly if it has, and stays accurate. */
  lemma PutRotates(h: HashFn, d: Disk, s: Handle, bytes: Bytes)
    requires Accurate(d, s) && PutStep(h, d, s, bytes).result.Ok?
    ensures var out := PutStep(h, d, s, bytes);
      && Accurate(out.disk, out.handle)
      && (Packs(h, d, s, bytes) ==>
            var loc := NewEntry(h, d, s, bytes).loc;
            && loc.offset < ROTATION
            && loc.pack == (if s.currentSize < ROTATION then s.currentId else s.currentId + 1)
            && (loc.pack !in d.packs <==> s.currentSize >= ROTATION))
  {
    PutShape(h, d, s, bytes);
    KeepsCurrent(d, s, h(bytes));
    HasKeepsSize(d, s, h(bytes));
    hide PutStep, HasStep, BeforeWrite, FormatEntry;
  }

  lemma HasKeepsSize(d: Disk, s: Handle, x: Digest)
    ensures HasStep(d, s, x).1.currentId == s.currentId && HasStep(d, s, x).1.currentSize == s.currentSize
  {
    hide InsertAll, Entries, CompleteLength;
  }

  /** However many handles write: right after packing a chunk, a handle knows the true size of its pack,
      what others appended included, and rotates next time if that has reached 256 MiB. */
  lemma PutLearnsSize(h: HashFn, d: Disk, s: Handle, bytes: Bytes)
    requires Packs(h, d, s, bytes)
    ensures var out := PutStep(h, d, s, bytes);
      && out.handle.currentId in out.disk.packs && |out.disk.packs[out.handle.currentId]| == out.handle.currentSize
      && out.handle.currentId == (if s.currentSize < ROTATION then s.currentId else s.currentId + 1)
  {
    PutShape(h, d, s, bytes);
    KeepsCurrent(d, s, h(bytes));
    HasKeepsSize(d, s, h(bytes));
    hide PutStep, HasStep, BeforeWrite, FormatEntry;
  }

  ghost predicate PacksBelow(d: Disk, most: nat) {
    forall p :: p in d.packs ==> |d.packs[p]| < ROTATION + most
  }

  lemma PutBounded(h: HashFn, d: Disk, s: Handle, bytes: Bytes, most: nat)
    requires Accurate(d, s) && PutStep(h, d, s, bytes).result.Ok? && PacksBelow(d, most) && |bytes| <= most
    ensures PacksBelow(PutStep(h, d, s, bytes).disk, most)
  {
    PutShape(h, d, s, bytes);
    KeepsCurrent(d, s, h(bytes));
    hide PutStep, HasStep, BeforeWrite, FormatEntry;
  }

  /** So from opening on, no pack a sole writer fills exceeds 256 MiB by a whole chunk. */
  lemma {:induction false} SoleWriterBound(h: HashFn, d: Disk, s: Handle, pieces: seq<Bytes>, most: nat)
    requires Accurate(d, s) && PutAll(h, d, s, pieces).result.Ok? && PacksBelow(d, most)
    requires forall i :: 0 <= i < |pieces| ==> |pieces[i]| <= most
    ensures var o := PutAll(h, d, s, pieces); Accurate(o.disk, o.handle) && PacksBelow(o.disk, most)
  {
    hide PutStep, Accurate, PacksBelow;
    if pieces != [] {
      var n := |pieces| - 1;
      SoleWriterBound(h, d, s, pieces[..n], most);
      var o := PutAll(h, d, s, pieces[..n]);
      PutRotates(h, o.disk, o.handle, pieces[n]);
      PutBounded(h, o.disk, o.handle, pieces[n], most);
    }
  }
}
