/** The whole erasure-coded download (crates/np2ptp-net/src/lib.rs): manifest, symbols, the
    recomputed content id, the store. */
module FecDownload {
  import opened Basics
  import opened Merkle
  import opened MerkleTheorems
  import opened Manifests
  import opened ManifestTheorems
  import opened BuildTheorems
  import opened IndexLog
  import opened StoreSpec
  import opened StoreInvariant
  import opened Reading
  import opened Transfer
  import opened RoundTrip
  import opened Stores
  import opened StoreTrees
  import opened EventLoops
  import opened Requests
  import opened Fec
  import opened FecTheorems

  /** A provider answers the n-th request it gets, whatever it likes. */
  type Remote = (nat, Request) -> Reply
  /** The decoder is configured by the declared size. */
  type SizedDecoder = (nat, seq<Bytes>) -> Option<Bytes>

  function SymbolsFrom(remote: Remote, root: Digest): Provider {
    (round: nat, start: nat) => GetSymbols(remote(round + 1, AskSymbols(root, start, FEC_BATCH)))
  }

  function DecoderFor(decode: SizedDecoder, total: nat): Decoder {
    (symbols: seq<Bytes>) => decode(total, symbols)
  }

  /** The stream the symbols decoded to, checked for size only through `SplitStream` below. */
  function FetchStream(m: Manifest, root: Digest, remote: Remote,
                      decode: SizedDecoder): Result<(Bytes, nat), NetError> {
    if m.totalSize > MAX_FEC_TRANSFER_SIZE then Err(BadManifest)
    else
      FreshProgresses(m.totalSize);
      FetchFrom(m.totalSize, root, SymbolsFrom(remote, root), DecoderFor(decode, m.totalSize), FRESH)
  }

  /** The stream cut into files, if cutting it the way the chunker does gives the content id. */
  function AcceptStream(h: HashFn, cut: Chunker, m: Manifest, root: Digest, data: Bytes): Result<seq<File>, NetError> {
    match SplitStream(m, data)
    case Err(_) => Err(NetError.BadChunk)
    case Ok(files) =>
      if FromFiles(h, cut, files, m.name).root != root then Err(NetError.BadChunk) else Ok(files)
  }

  datatype Downloaded = Downloaded(disk: Disk, handle: Handle, result: Result<Manifest, NetError>, receipt: Option<nat>)

  function DownloadFec(h: HashFn, cut: Chunker, parse: Parser, decode: SizedDecoder, remote: Remote, root: Digest,
                      d: Disk, s: Handle): Downloaded {
    match GetManifest(h, parse, root, remote(0, AskManifest(root)))
    case Err(e) => Downloaded(d, s, Err(e), None)
    case Ok(m) =>
      match FetchStream(m, root, remote, decode)
      case Err(e) => Downloaded(d, s, Err(e), None)
      case Ok((data, fetched)) =>
        match AcceptStream(h, cut, m, root, data)
        case Err(e) => Downloaded(d, s, Err(e), None)
        case Ok(files) =>
          var o := PutAll(h, d, s, PiecesOf(cut, files));
          if o.result.Err? then Downloaded(o.disk, o.handle, Err(StoreFailed(o.result.error)), None)
          else Downloaded(o.disk, o.handle, Ok(m), if fetched > 0 then Some(fetched) else None)
  }

  method Download(store: Store, cut: Chunker, parse: Parser, decode: SizedDecoder, remote: Remote, root: Digest)
    returns (r: Result<Manifest, NetError>, receipt: Option<nat>, progress: seq<(nat, nat)>)
    requires CutsTile(cut)
    modifies store, store.dir
    ensures Downloaded(store.dir.View(), store.View(), r, receipt)
         == DownloadFec(store.h, cut, parse, decode, remote, root, old(store.dir.View()), old(store.View()))
    ensures var got := GetManifest(store.h, parse, root, remote(0, AskManifest(root)));
      if got.Err? then progress == []
      else
        && Reported(got.value.totalSize, SymbolsFrom(remote, root), progress)
        && (FetchStream(got.value, root, remote, decode).Ok? ==>
              decode(got.value.totalSize, After(SymbolsFrom(remote, root), |progress|).symbols)
                == Some(FetchStream(got.value, root, remote, decode).value.0))
  {
    hide Reported, After, GetManifest, PutAll, PiecesOf, FromFiles, SplitStream, FetchFrom, CutsTile, SymbolsFrom;
    progress := [];
    var got := GetManifest(store.h, parse, root, remote(0, AskManifest(root)));
    if got.Err? {
      return Err(got.error), None, progress;
    }
    var m := got.value;
    NothingReported(m.totalSize, SymbolsFrom(remote, root));
    if m.totalSize > MAX_FEC_TRANSFER_SIZE {
      return Err(BadManifest), None, progress;
    }
    var provider, decoder := SymbolsFrom(remote, root), DecoderFor(decode, m.totalSize);
    var fetched, reports, _, _, _ := FetchSymbols(m.totalSize, root, provider, decoder);
    progress := reports;
    if fetched.Err? {
      return Err(fetched.error), None, progress;
    }
    var (data, bytes) := fetched.value;
    var files := SplitIntoFiles(m, data);
    if files.Err? {
      return Err(NetError.BadChunk), None, progress;
    }
    var recomputed := BuildManifest(store.h, cut, files.value, m.name);
    if recomputed.root != root {
      return Err(NetError.BadChunk), None, progress;
    }
    var stored := IngestTree(store, cut, files.value, m.name);
    if stored.Err? {
      return Err(StoreFailed(stored.error)), None, progress;
    }
    return Ok(m), if bytes > 0 then Some(bytes) else None, progress;
  }

  lemma NothingReported(total: nat, provider: Provider)
    ensures Reported(total, provider, [])
  {
  }

  // ---- integrity ----

  lemma {:induction false} SplitContents(m: Manifest, data: Bytes, n: nat)
    requires n <= |m.files| && SplitFiles(m, data, n).Ok?
    ensures Contents(SplitFiles(m, data, n).value) == data[..SizeSum(m.files[..n])]
  {
    if n > 0 {
      SplitContents(m, data, n - 1);
      assert m.files[..n][..n - 1] == m.files[..n - 1];
    }
  }

  /** Cutting a stream that is as long as declared loses nothing. */
  lemma SplitLosesNothing(m: Manifest, data: Bytes)
    requires SplitStream(m, data).Ok? && m.totalSize < U64_MAX
    ensures Contents(SplitStream(m, data).value) == data
  {
    hide Validate, SplitFiles, Contents;
    ValidSumsExact(m);
    SplitContents(m, data, |m.files|);
    assert m.files[..|m.files|] == m.files;
  }

  /** An accepted stream has the chunks the manifest lists, whatever lengths the manifest claims,
      or the two hash lists exhibit a collision. */
  lemma AcceptedStreamMatches(h: HashFn, cut: Chunker, m: Manifest, root: Digest, data: Bytes)
    requires CutsTile(cut) && m.root == root && RootConsistent(h, m) && m.totalSize < U64_MAX
    requires AcceptStream(h, cut, m, root, data).Ok?
    ensures var files := AcceptStream(h, cut, m, root, data).value;
      var pieces := PiecesOf(cut, files);
      && Flatten(pieces) == data && |data| == m.totalSize
      && ( || Lists(h, m, pieces)
           || Collide(h, RootInputs(h, Hashes(m.chunks)),
             RootInputs(h, Hashes(FromFiles(h, cut, files, m.name).chunks))))
  {
    var files := AcceptStream(h, cut, m, root, data).value;
    SplitLosesNothing(m, data);
    PiecesFlatten(cut, files);
    BuildMatches(h, cut, files);
    RootBinding(h, Hashes(m.chunks), Hashes(FromFiles(h, cut, files, m.name).chunks));
    hide Root, Build, PiecesOf, CutsTile, Collide, RootInputs, Validate, SplitFiles, Contents;
  }

  /** The manifest lists exactly the hashes of these pieces. */
  ghost predicate Lists(h: HashFn, m: Manifest, pieces: seq<Bytes>) {
    |m.chunks| == |pieces| && forall i :: 0 <= i < |pieces| ==> m.chunks[i].hash == h(pieces[i])
  }

  /** Exporting a manifest that lists the pieces just put: the true stream if every piece was
      welcome, or a collision with what the store held; an error otherwise. */
  lemma ExportAfterPuts(h: HashFn, m: Manifest, pieces: seq<Bytes>, d: Disk, s: Handle, log: seq<IndexEntry>,
                      sources: Sources)
    requires DiskInv(h, d, log, []) && HandleInv(d, s, log) && PutAll(h, d, s, pieces).result.Ok?
    requires Lists(h, m, pieces) && RootConsistent(h, m) && Validate(m).Ok? && |Flatten(pieces)| == m.totalSize
    ensures var o := PutAll(h, d, s, pieces);
      var r := Reconstruct(h, m, StoreFetch(h, o.disk, o.handle, sources));
      if AllWelcome(h, d, s, log, sources, pieces)
      then r == Ok(Flatten(pieces))
        || Collide(h, PieceSet(pieces), Holdings(h, o.disk, o.handle, sources, PieceHashes(h, pieces)))
      else r.Err?
  {
    hide DiskInv, HandleInv, StoreFetch, PutAll, SeenRefs, Welcome, Readable, Collide, Holdings, RootConsistent,
      Validate, Collect, Flatten;
    var o := PutAll(h, d, s, pieces);
    var log' := PutAllKeeps(h, d, s, pieces, log);
    var fetch := StoreFetch(h, o.disk, o.handle, sources);
    forall i | 0 <= i < |pieces|
      ensures Readable(h, o.disk, o.handle, sources, m.chunks[i].hash) <==>
        Welcome(h, d, SeenRefs(h, d, s, log, pieces).0, log, sources, pieces, h(pieces[i]))
    {
      assert h(pieces[i]) in PieceHashes(h, pieces);
      ReadableIffWelcome(h, d, s, log, sources, pieces, h(pieces[i]));
    }
    ExportsIff(h, m, o.disk, o.handle, log', [], sources);
    if AllWelcome(h, d, s, log, sources, pieces) {
      AllPiecesReadBack(h, m, o.disk, o.handle, sources, log', [], pieces);
      if Supplies(h, m, fetch, pieces) {
        CollectSupplied(h, m, fetch, pieces, 0, |pieces|);
        assert pieces[0..|pieces|] == pieces;
      }
    }
  }

  /** What a successful download accepted. */
  ghost function AcceptedFiles(h: HashFn, cut: Chunker, remote: Remote, decode: SizedDecoder, m: Manifest,
                      root: Digest): (Bytes, seq<File>)
    requires FetchStream(m, root, remote, decode).Ok?
    requires AcceptStream(h, cut, m, root, FetchStream(m, root, remote, decode).value.0).Ok?
  {
    var data := FetchStream(m, root, remote, decode).value.0;
    (data, AcceptStream(h, cut, m, root, data).value)
  }

  lemma DownloadedShape(h: HashFn, cut: Chunker, parse: Parser, decode: SizedDecoder, remote: Remote, root: Digest,
                      d: Disk, s: Handle)
    requires DownloadFec(h, cut, parse, decode, remote, root, d, s).result.Ok?
    ensures var out := DownloadFec(h, cut, parse, decode, remote, root, d, s);
      var m := out.result.value;
      && m.root == root && RootConsistent(h, m) && Validate(m).Ok? && m.totalSize <= MAX_FEC_TRANSFER_SIZE
      && FetchStream(m, root, remote, decode).Ok?
      && AcceptStream(h, cut, m, root, FetchStream(m, root, remote, decode).value.0).Ok?
      && var files := AcceptedFiles(h, cut, remote, decode, m, root).1;
         StoredOut(out.disk, out.handle, Ok(())) == PutAll(h, d, s, PiecesOf(cut, files))
  {
    hide PutAll, PiecesOf, AcceptStream, FetchFrom, RootConsistent, Validate;
    var out := DownloadFec(h, cut, parse, decode, remote, root, d, s);
    var files := AcceptedFiles(h, cut, remote, decode, out.result.value, root).1;
    UnitOk(PutAll(h, d, s, PiecesOf(cut, files)).result);
  }

  /** Integrity. After a successful download, `export` of the returned manifest gives exactly the
      decoded stream if every chunk was welcome before, unless there is a collision: between the
      hash lists of the two manifests, or between a chunk of the stream and what the store held
      under its hash. If some chunk was not welcome, `export` fails. */
  lemma FecIntegrity(h: HashFn, cut: Chunker, parse: Parser, decode: SizedDecoder, remote: Remote, root: Digest,
                     d: Disk, s: Handle, log: seq<IndexEntry>, sources: Sources)
    requires DiskInv(h, d, log, []) && HandleInv(d, s, log) && CutsTile(cut)
    requires DownloadFec(h, cut, parse, decode, remote, root, d, s).result.Ok?
    ensures var o := DownloadFec(h, cut, parse, decode, remote, root, d, s);
      var m := o.result.value;
      && m.root == root
      && FetchStream(m, root, remote, decode).Ok?
      && AcceptStream(h, cut, m, root, FetchStream(m, root, remote, decode).value.0).Ok?
      && var (data, files) := AcceptedFiles(h, cut, remote, decode, m, root);
         var pieces := PiecesOf(cut, files);
         var r := ExportResult(h, m, o.disk, o.handle, sources,
           Reconstruct(h, m, StoreFetch(h, o.disk, o.handle, sources)));
         || Collide(h, RootInputs(h, Hashes(m.chunks)), RootInputs(h, Hashes(FromFiles(h, cut, files, m.name).chunks)))
         || if AllWelcome(h, d, s, log, sources, pieces)
            then r == Ok(data) || Collide(h, PieceSet(pieces),
              Holdings(h, o.disk, o.handle, sources, PieceHashes(h, pieces)))
            else r.Err?
  {
    hide DownloadFec, DiskInv, HandleInv, CutsTile, StoreFetch, PutAll, PiecesOf, FromFiles, AcceptStream, FetchStream,
      Collide, RootInputs, Holdings, RootConsistent, Validate, Reconstruct, AllWelcome;
    DownloadedShape(h, cut, parse, decode, remote, root, d, s);
    var m := DownloadFec(h, cut, parse, decode, remote, root, d, s).result.value;
    var (data, files) := AcceptedFiles(h, cut, remote, decode, m, root);
    var pieces := PiecesOf(cut, files);
    AcceptedStreamMatches(h, cut, m, root, data);
    PiecesFlatten(cut, files);
    if Lists(h, m, pieces) {
      ExportAfterPuts(h, m, pieces, d, s, log, sources);
    }
  }

  /** The receipt sent is for exactly the symbol bytes the provider handed over, and none is sent
      for nothing. */
  lemma FecReceiptExact(h: HashFn, cut: Chunker, parse: Parser, decode: SizedDecoder, remote: Remote, root: Digest,
                      d: Disk, s: Handle)
    returns (k: nat)
    requires DownloadFec(h, cut, parse, decode, remote, root, d, s).result.Ok?
    ensures var out := DownloadFec(h, cut, parse, decode, remote, root, d, s);
      var received := SizeOf(After(SymbolsFrom(remote, root), k).symbols);
      && out.receipt == (if received > 0 then Some(received) else None)
      && received <= 2 * out.result.value.totalSize
  {
    hide PutAll, PiecesOf, AcceptStream, GetManifest, FetchFrom, Progressing;
    var m := DownloadFec(h, cut, parse, decode, remote, root, d, s).result.value;
    FreshProgresses(m.totalSize);
    assert FRESH.fetched == SizeOf(FRESH.symbols);
    NothingYet(SymbolsFrom(remote, root));
    hide SizeOf, After;
    k := FetchedMeaning(m.totalSize, root, SymbolsFrom(remote, root), DecoderFor(decode, m.totalSize), FRESH);
  }
}
