/** `Store::ingest_tree` and `Store::export_tree`: the loops that put and get whole trees. */
module StoreTrees {
  import opened Basics
  import opened IndexLog
  import opened StoreSpec
  import opened StoreInvariant
  import opened StoreSteps
  import opened Stores
  import opened Manifests
  import opened BuildTheorems
  import opened Reading
  import opened Transfer

  lemma PutAllSnoc(h: HashFn, d: Disk, s: Handle, pieces: seq<Bytes>, last: Bytes)
    ensures var o := PutAll(h, d, s, pieces);
      PutAll(h, d, s, pieces + [last]) ==
        if o.result.Err? then o
        else var p := PutStep(h, o.disk, o.handle, last);
          StoredOut(p.disk, p.handle, if p.result.Ok? then Ok(()) else Err(p.result.error))
  {
    hide PutStep;
    assert (pieces + [last])[..|pieces|] == pieces;
  }

  lemma {:induction false} PutAllStops(h: HashFn, d: Disk, s: Handle, pieces: seq<Bytes>, more: seq<Bytes>)
    requires PutAll(h, d, s, pieces).result.Err?
    ensures PutAll(h, d, s, pieces + more) == PutAll(h, d, s, pieces)
  {
    hide PutStep;
    if more == [] {
      EmptyTail(pieces);
    } else {
      PutAllStops(h, d, s, pieces, more[..|more| - 1]);
      assert (pieces + more)[..|pieces + more| - 1] == pieces + more[..|more| - 1];
    }
  }

  /** One file: its bytes are cut at the lengths the manifest lists, and each slice is put. */
  method PutFile(store: Store, data: Bytes, refs: seq<ChunkRef>, ghost done: seq<Bytes>, ghost pieces: seq<Bytes>,
                 ghost d: Disk, ghost s: Handle) returns (r: Result<(), StoreError>)
    requires RefsMatch(store.h, refs, pieces) && Flatten(pieces) == data
    requires PutAll(store.h, d, s, done) == StoredOut(store.dir.View(), store.View(), Ok(()))
    modifies store, store.dir
    ensures StoredOut(store.dir.View(), store.View(), r) == PutAll(store.h, d, s, done + pieces)
  {
    hide PutAll, PutStep;
    var local := 0;
    EmptyTail(done);
    for i := 0 to |refs|
      invariant local == |Flatten(pieces[..i])| <= |data|
      invariant PutAll(store.h, d, s, done + pieces[..i]) == StoredOut(store.dir.View(), store.View(), Ok(()))
    {
      var len := refs[i].length;
      PieceSlice(pieces, i);
      assert pieces[..i + 1] == pieces[..i] + [pieces[i]];
      ConcatAssoc(done, pieces[..i], [pieces[i]]);
      PutAllSnoc(store.h, d, s, done + pieces[..i], pieces[i]);
      var p := store.Put(data[local..local + len]);
      if p.Err? {
        PutAllStops(store.h, d, s, done + pieces[..i + 1], pieces[i + 1..]);
        assert done + pieces == (done + pieces[..i + 1]) + pieces[i + 1..];
        return Err(p.error);
      }
      local := local + len;
    }
    assert pieces[..|pieces|] == pieces;
    return Ok(());
  }

  method IngestTree(store: Store, cut: Chunker, files: seq<File>,
                    name: Option<string>) returns (r: Result<Manifest, StoreError>)
    requires CutsTile(cut)
    modifies store, store.dir
    ensures var o := PutAll(store.h, old(store.dir.View()), old(store.View()), PiecesOf(cut, files));
      && store.dir.View() == o.disk && store.View() == o.handle
      && r == if o.result.Ok? then Ok(FromFiles(store.h, cut, files, name)) else Err(o.result.error)
  {
    hide PutAll, PutStep, FromFiles, PiecesOf, Tiles;
    ghost var d, s := store.dir.View(), store.View();
    var m := BuildManifest(store.h, cut, files, name);
    NothingPut(store.h, d, s, cut, files[..0]);
    for k := 0 to |files|
      invariant PutAll(store.h, d, s, PiecesOf(cut, files[..k])) == StoredOut(store.dir.View(), store.View(), Ok(()))
    {
      var data := files[k].1;
      FileRefs(store.h, cut, files, name, k);
      var entry := m.files[k];
      var refs := m.chunks[entry.chunkStart..entry.chunkStart + entry.chunkCount];
      CutFlattens(cut, data);
      PiecesNext(cut, files, k);
      var p := PutFile(store, data, refs, PiecesOf(cut, files[..k]), cut(data), d, s);
      if p.Err? {
        PiecesStartWith(cut, files, k + 1);
        PutAllStops(store.h, d, s, PiecesOf(cut, files[..k + 1]),
          PiecesOf(cut, files)[|PiecesOf(cut, files[..k + 1])|..]);
        return Err(p.error);
      }
      UnitOk(p);
    }
    assert files[..|files|] == files;
    return Ok(m);
  }

  lemma UnitOk<E>(r: Result<(), E>)
    requires r.Ok?
    ensures r == Ok(())
  {
    match r.value
    case () =>
  }

  lemma NothingPut(h: HashFn, d: Disk, s: Handle, cut: Chunker, none: seq<File>)
    requires none == []
    ensures PutAll(h, d, s, PiecesOf(cut, none)) == StoredOut(d, s, Ok(()))
  {
  }

  lemma PiecesNext(cut: Chunker, files: seq<File>, k: nat)
    requires k < |files|
    ensures PiecesOf(cut, files[..k + 1]) == PiecesOf(cut, files[..k]) + cut(files[k].1)
  {
    assert files[..k + 1][..k] == files[..k];
  }

  lemma {:induction false} PiecesStartWith(cut: Chunker, files: seq<File>, k: nat)
    requires k <= |files|
    ensures |PiecesOf(cut, files[..k])| <= |PiecesOf(cut, files)|
    ensures PiecesOf(cut, files[..k]) + PiecesOf(cut, files)[|PiecesOf(cut, files[..k])|..] == PiecesOf(cut, files)
    decreases |files|
  {
    if k == |files| {
      assert files[..k] == files;
    } else {
      var before := files[..|files| - 1];
      PiecesStartWith(cut, before, k);
      assert before[..k] == files[..k];
      assert PiecesOf(cut, files) == PiecesOf(cut, before) + cut(files[|files| - 1].1);
    }
  }

  /** The chunks the manifest lists for file `k` are that file's pieces. */
  lemma FileRefs(h: HashFn, cut: Chunker, files: seq<File>, name: Option<string>, k: nat)
    requires k < |files|
    ensures var m := FromFiles(h, cut, files, name);
      && |m.files| == |files|
      && m.files[k].chunkStart + m.files[k].chunkCount <= |m.chunks|
      && RefsMatch(h, m.chunks[m.files[k].chunkStart..m.files[k].chunkStart + m.files[k].chunkCount], cut(files[k].1))
  {
    hide Build, PiecesOf;
    BuildEntry(h, cut, files, k);
    BuildMatches(h, cut, files);
    PiecesPrefix(cut, files, k);
    var e := Build(h, cut, files).entries[k];
    OwnRefsMatch(h, Build(h, cut, files).chunks, PiecesOf(cut, files), e.chunkStart, e.chunkCount);
  }

  /** Chunks `lo..hi` through the store. The handle may refresh on the way; the answers are those
      it would have given at the start. */
  method CollectFromStore(store: Store, m: Manifest, lo: nat, hi: nat,
                      sources: Sources, ghost s: Handle, ghost log: seq<IndexEntry>)
    returns (r: Result<Bytes, ExportError>)
    requires lo <= hi <= |m.chunks|
    requires DiskInv(store.h, store.dir.View(), log, []) && HandleInv(store.dir.View(), s, log)
    requires HandleInv(store.dir.View(), store.View(), log) && store.refs == s.refs
    modifies store
    ensures HandleInv(store.dir.View(), store.View(), log) && store.refs == s.refs
    ensures var h, d := store.h, store.dir.View();
      r == ExportResult(h, m, d, s, sources, Collect(h, m, StoreFetch(h, d, s, sources), lo, hi))
  {
    hide DiskInv, HandleInv, GetStep, VerifyChunk;
    ghost var h, d := store.h, store.dir.View();
    ghost var fetch := StoreFetch(h, d, s, sources);
    var out: Bytes := [];
    for i := lo to hi
      invariant store.dir.View() == d
      invariant HandleInv(d, store.View(), log) && store.refs == s.refs
      invariant Collect(h, m, fetch, lo, i) == Ok(out)
    {
      var x := m.chunks[i].hash;
      GetKeeps(h, d, store.View(), sources, x, log, []);
      GetKeepsRefs(h, d, store.View(), sources, x);
      GetIndependentOfProgress(h, d, store.View(), s, sources, log, [], x);
      if FetchChunk(h, m, fetch, i).Err? {
        CollectFails(h, m, fetch, lo, i, hi);
      }
      var got := store.Get(x, sources);
      if got.Err? {
        return Err(FromStore(got.error));
      }
      if got.value.None? || !VerifyChunk(store.h, m, i, got.value.value) {
        return Err(FromManifest(BadChunk(i)));
      }
      out := out + got.value.value;
    }
    return Ok(out);
  }

  /** `export`: exactly the reconstruction of the stream over what the store answers. */
  method ExportStream(store: Store, m: Manifest, sources: Sources, ghost log: seq<IndexEntry>)
    returns (r: Result<Bytes, ExportError>)
    requires DiskInv(store.h, store.dir.View(), log, []) && HandleInv(store.dir.View(), store.View(), log)
    modifies store
    ensures HandleInv(store.dir.View(), store.View(), log)
    ensures var h, d, s := store.h, store.dir.View(), old(store.View());
      r == ExportResult(h, m, d, s, sources, Reconstruct(h, m, StoreFetch(h, d, s, sources)))
  {
    hide DiskInv, HandleInv, GetStep, Collect, Validate, StoreFetch;
    ghost var s := store.View();
    var valid := ValidateManifest(m);
    if valid.Err? {
      ValidateErrors(m);
      return Err(FromManifest(valid.error));
    }
    r := CollectFromStore(store, m, 0, |m.chunks|, sources, s, log);
    if r.Ok? && |r.value| != m.totalSize {
      return Err(FromManifest(SizeMismatch(|r.value|, m.totalSize)));
    }
  }

  /** `export_tree`: exactly the file-by-file reconstruction over what the store answers. */
  method ExportTree(store: Store, m: Manifest, sources: Sources, ghost log: seq<IndexEntry>)
    returns (r: Result<seq<File>, ExportError>)
    requires DiskInv(store.h, store.dir.View(), log, []) && HandleInv(store.dir.View(), store.View(), log)
    modifies store
    ensures HandleInv(store.dir.View(), store.View(), log)
    ensures var h, d, s := store.h, store.dir.View(), old(store.View());
      r == ExportResult(h, m, d, s, sources, ReconstructFiles(h, m, StoreFetch(h, d, s, sources)))
  {
    hide DiskInv, HandleInv, GetStep, Collect, Validate, StoreFetch;
    ghost var h, d, s := store.h, store.dir.View(), store.View();
    ghost var fetch := StoreFetch(h, d, s, sources);
    var valid := ValidateManifest(m);
    if valid.Err? {
      ValidateErrors(m);
      return Err(FromManifest(valid.error));
    }
    var out: seq<File> := [];
    for i := 0 to |m.files|
      invariant store.dir.View() == d
      invariant HandleInv(d, store.View(), log) && store.refs == s.refs
      invariant CollectFiles(h, m, fetch, i) == Ok(out)
    {
      var entry := m.files[i];
      if CollectFile(h, m, fetch, entry).Err? {
        CollectFilesFails(h, m, fetch, i, |m.files|);
      }
      if entry.chunkStart + entry.chunkCount > |m.chunks| {
        return Err(FromManifest(Invalid(RangeOutOfBounds)));
      }
      var bytes := CollectFromStore(store, m, entry.chunkStart, entry.chunkStart + entry.chunkCount, sources, s, log);
      if bytes.Err? {
        return Err(bytes.error);
      }
      if |bytes.value| != entry.size {
        return Err(FromManifest(SizeMismatch(|bytes.value|, entry.size)));
      }
      out := out + [(entry.path, bytes.value)];
    }
    return Ok(out);
  }

  lemma ValidateErrors(m: Manifest)
    requires Validate(m).Err?
    ensures !Validate(m).error.BadChunk?
  {
    EntryErrors(m, |m.files|);
    hide CheckEntries;
  }

  lemma {:induction false} EntryErrors(m: Manifest, n: nat)
    requires n <= |m.files|
    ensures CheckEntries(m, n).Err? ==> !CheckEntries(m, n).error.BadChunk?
  {
    if n > 0 {
      EntryErrors(m, n - 1);
    }
  }
}
