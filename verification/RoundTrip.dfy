/** Files in, files out: exactly when exporting what was ingested gives it back. */
module RoundTrip {
  import opened Basics
  import opened IndexLog
  import opened RefLog
  import opened StoreSpec
  import opened StoreInvariant
  import opened StoreSteps
  import opened StoreTheorems
  import opened Reading
  import opened Manifests
  import opened ManifestTheorems
  import opened BuildTheorems
  import opened Transfer

  ghost predicate AllWelcome(h: HashFn, d: Disk, s: Handle, log: seq<IndexEntry>, sources: Sources,
                      pieces: seq<Bytes>) {
    forall i :: 0 <= i < |pieces| ==>
      Welcome(h, d, SeenRefs(h, d, s, log, pieces).0, log, sources, pieces, h(pieces[i]))
  }

  /** End to end, from any state that meets the invariant, when the ingest succeeds. If every chunk
      was welcome before it, exporting the manifest afterwards returns exactly the files, or a chunk
      of theirs collides with the bytes the store already held under its hash. If some chunk was not
      welcome, the export fails. */
  lemma IngestThenExport(h: HashFn, cut: Chunker, files: seq<File>, name: Option<string>, d: Disk, s: Handle,
                      log: seq<IndexEntry>, sources: Sources)
    requires DiskInv(h, d, log, []) && HandleInv(d, s, log)
    requires CutsTile(cut) && |Contents(files)| <= U64_MAX
    requires PutAll(h, d, s, PiecesOf(cut, files)).result.Ok?
    ensures var o, pieces := PutAll(h, d, s, PiecesOf(cut, files)), PiecesOf(cut, files);
      var r := ReconstructFiles(h, FromFiles(h, cut, files, name), StoreFetch(h, o.disk, o.handle, sources));
      if AllWelcome(h, d, s, log, sources, pieces)
      then r == Ok(files) || Collide(h, PieceSet(pieces),
        Holdings(h, o.disk, o.handle, sources, PieceHashes(h, pieces)))
      else r.Err?
  {
    hide DiskInv, HandleInv, Welcome, Readable, SeenRefs, StoreFetch, Collide, PutAll, PiecesOf, Build,
      ReconstructFiles, Holdings;
    var pieces := PiecesOf(cut, files);
    var o, m := PutAll(h, d, s, pieces), FromFiles(h, cut, files, name);
    PiecesFlatten(cut, files);
    BuildMatches(h, cut, files);
    var log' := PutAllKeeps(h, d, s, pieces, log);
    BuiltExport(h, cut, files, name, o.disk, o.handle, log', [], sources);
    forall i | 0 <= i < |pieces|
      ensures Readable(h, o.disk, o.handle, sources, m.chunks[i].hash) <==>
        Welcome(h, d, SeenRefs(h, d, s, log, pieces).0, log, sources, pieces, h(pieces[i]))
    {
      assert h(pieces[i]) in PieceHashes(h, pieces);
      ReadableIffWelcome(h, d, s, log, sources, pieces, h(pieces[i]));
    }
  }

  /** The same at every state of every run, through every handle open in it. */
  lemma RoundTripInEveryRun(h: HashFn, states: seq<System>, acts: seq<Action>, n: nat, id: nat,
                            cut: Chunker, files: seq<File>, name: Option<string>, sources: Sources)
    requires Run(h, states, acts) && n < |states| && id in states[n].handles && WholeLines(states[n].disk.index)
    requires CutsTile(cut) && |Contents(files)| <= U64_MAX
    requires PutAll(h, states[n].disk, states[n].handles[id], PiecesOf(cut, files)).result.Ok?
    ensures var d, s, pieces := states[n].disk, states[n].handles[id], PiecesOf(cut, files);
      var o := PutAll(h, d, s, pieces);
      var r := ReconstructFiles(h, FromFiles(h, cut, files, name), StoreFetch(h, o.disk, o.handle, sources));
      if AllWelcome(h, d, s, PackedLog(d), sources, pieces)
      then r == Ok(files) || Collide(h, PieceSet(pieces),
        Holdings(h, o.disk, o.handle, sources, PieceHashes(h, pieces)))
      else r.Err?
  {
    hide DiskInv, HandleInv, AllWelcome, PackedLog, StoreFetch, Collide, PutAll, PiecesOf, FromFiles, ReconstructFiles,
      Holdings, Run;
    var _, _, log, torn := RunKeeps(h, states, acts, n, n);
    PackedLogIs(h, states[n].disk, log, torn);
    UntornIffWhole(h, states[n].disk, log, torn);
    IngestThenExport(h, cut, files, name, states[n].disk, states[n].handles[id], log, sources);
  }

  /** With room in the pack ids and the packs the ingest does succeed, welcome or not. */
  lemma RoundTripWithRoom(h: HashFn, cut: Chunker, files: seq<File>, name: Option<string>,
                          d: Disk, s: Handle, log: seq<IndexEntry>, sources: Sources)
    requires DiskInv(h, d, log, []) && HandleInv(d, s, log)
    requires CutsTile(cut) && Room(d, s, |PiecesOf(cut, files)|, |Contents(files)|)
    ensures var o, pieces := PutAll(h, d, s, PiecesOf(cut, files)), PiecesOf(cut, files);
      var r := ReconstructFiles(h, FromFiles(h, cut, files, name), StoreFetch(h, o.disk, o.handle, sources));
      && o.result.Ok?
      && if AllWelcome(h, d, s, log, sources, pieces)
         then r == Ok(files) || Collide(h, PieceSet(pieces),
           Holdings(h, o.disk, o.handle, sources, PieceHashes(h, pieces)))
         else r.Err?
  {
    hide DiskInv, HandleInv, AllWelcome, StoreFetch, Collide, PutAll, PiecesOf, FromFiles, ReconstructFiles, Holdings,
      CutsTile;
    PiecesFlatten(cut, files);
    RoomSuffices(h, d, s, PiecesOf(cut, files));
    IngestThenExport(h, cut, files, name, d, s, log, sources);
  }

  // ---- an ingest interleaved with everything else ----

  /** Some handle packed the chunk earlier in the run, and no crash inside a trim came after. */
  ghost predicate PackedBefore(h: HashFn, states: seq<System>, acts: seq<Action>, n: nat, bytes: Bytes)
    requires |states| == |acts| + 1
  {
    exists m: nat :: m < n && PackedAt(h, states, acts, m, bytes) && NoTrimCrash(acts, m, n)
  }

  ghost predicate PackedAt(h: HashFn, states: seq<System>, acts: seq<Action>, m: nat, bytes: Bytes)
    requires |states| == |acts| + 1
  {
    && m < |acts| && acts[m].Put? && acts[m].bytes == bytes && acts[m].id in states[m].handles
    && Packs(h, states[m].disk, states[m].handles[acts[m].id], bytes)
  }

  /** In every run in which the pieces of some files were packed one by one, by any handles, in any
      order and with any other steps between, every handle open later exports exactly the files. No
      collision can interfere. */
  lemma InterleavedIngest(h: HashFn, states: seq<System>, acts: seq<Action>, n: nat, id: nat,
                          cut: Chunker, files: seq<File>, name: Option<string>, sources: Sources)
    requires Run(h, states, acts) && n < |states| && id in states[n].handles
    requires CutsTile(cut) && |Contents(files)| <= U64_MAX
    requires forall i :: 0 <= i < |PiecesOf(cut, files)| ==> PackedBefore(h, states, acts, n, PiecesOf(cut, files)[i])
    ensures ReconstructFiles(h, FromFiles(h, cut, files, name),
      StoreFetch(h, states[n].disk, states[n].handles[id], sources)) == Ok(files)
  {
    hide Step, PiecesOf, Build, ReconstructFiles, GetStep, HasStep, Packs, CutsTile, Contents;
    var pieces, fetch := PiecesOf(cut, files), StoreFetch(h, states[n].disk, states[n].handles[id], sources);
    PiecesFlatten(cut, files);
    BuildMatches(h, cut, files);
    forall i | 0 <= i < |pieces|
      ensures fetch(h(pieces[i])) == Some(pieces[i])
    {
      assert PackedBefore(h, states, acts, n, pieces[i]);
      var m: nat :| m < n && PackedAt(h, states, acts, m, pieces[i]) && NoTrimCrash(acts, m, n);
      PutStaysVisible(h, states, acts, m, n, id, sources);
    }
    BuiltManifestRoundTrip(h, cut, files, name, fetch);
  }

  // ---- a reference to a file that is gone ----

  const GONE: Bytes := [103]

  function DanglingRef(h: HashFn): Reference { Reference(h([1]), RefLoc(GONE, 0, 1)) }

  /** An empty directory is opened, and a chunk of some file is referred to in place. */
  ghost function DanglingRun(h: HashFn): seq<System> {
    var (d, s) := ReferStep(NEW_DISK, NEW_HANDLE, DanglingRef(h));
    [System(EMPTY_DISK, map[]), System(NEW_DISK, map[0 := NEW_HANDLE]), System(d, map[0 := s])]
  }

  lemma DanglingReached(h: HashFn)
    ensures Run(h, DanglingRun(h), [Open(0), Refer(0, DanglingRef(h))])
    ensures var a := DanglingRun(h)[2];
      && a.disk.index == [] && a.disk.objects == map[] && 0 in a.handles
      && a.handles[0].index == map[] && a.handles[0].refs == map[h([1]) := DanglingRef(h).loc]
  {
    hide FormatRef;
    var states := DanglingRun(h);
    var s1 := states[1].handles[0];
    assert Opened(states[0].disk, states[1].disk, s1) && states[1].handles == map[][0 := s1];
    assert Step(h, states[0], Open(0), states[1]);
  }

  /** The file is deleted. Ingesting the same chunk still succeeds without storing anything, and what
      was ingested cannot be exported. */
  lemma DanglingReferenceLosesIngest(h: HashFn, cut: Chunker, name: Option<string>)
    requires CutsTile(cut)
    ensures var a, files := DanglingRun(h)[2], [("a", [1])];
      && 0 in a.handles
      && PutAll(h, a.disk, a.handles[0], PiecesOf(cut, files)) == StoredOut(a.disk, a.handles[0], Ok(()))
      && ReconstructFiles(h, FromFiles(h, cut, files, name), StoreFetch(h, a.disk, a.handles[0], map[])).Err?
  {
    hide DanglingRun, CutsTile, FromFiles, ReconstructFiles, StoreFetch;
    DanglingReached(h);
    var a, files := DanglingRun(h)[2], [("a", [1])];
    var d, s := a.disk, a.handles[0];
    OnePiece(cut);
    KnownNotPut(h, d, s, [1]);
    var _, _, log, torn := RunKeeps(h, DanglingRun(h), [Open(0), Refer(0, DanglingRef(h))], 2, 2);
    PackedLogIs(h, d, log, torn);
    assert [[1]][..0] == [];
    ExportOfDangling(h, cut, name, d, s, log, torn);
  }

  lemma KnownNotPut(h: HashFn, d: Disk, s: Handle, bytes: Bytes)
    requires h(bytes) in s.refs
    ensures PutStep(h, d, s, bytes) == PutOut(d, s, Ok((h(bytes), false)))
    ensures PutAll(h, d, s, [bytes]) == StoredOut(d, s, Ok(()))
  {
    hide BeforeWrite, WritePack;
    assert [bytes][..0] == [];
  }

  lemma OnePiece(cut: Chunker)
    requires CutsTile(cut)
    ensures PiecesOf(cut, [("a", [1])]) == [[1]]
    ensures Contents([("a", [1])]) == [1]
  {
    assert Tiles(cut([1]), [1]);
    OneTile(cut([1]));
    var files := [("a", [1])];
    assert files[..0] == [] && PiecesOf(cut, files[..0]) == [];
    EmptyConcat(cut([1]));
  }

  lemma OneTile(pieces: seq<Bytes>)
    requires Tiles(pieces, [1])
    ensures pieces == [[1]]
  {
    var rest := pieces[1..];
    assert Flatten(pieces) == pieces[0] + Flatten(rest);
    assert rest != [] ==> |Flatten(rest)| > 0;
    assert rest == [];
    EmptyTail(pieces[0]);
    assert pieces == [pieces[0]];
  }

  lemma ExportOfDangling(h: HashFn, cut: Chunker, name: Option<string>, d: Disk, s: Handle, log: seq<IndexEntry>,
                      torn: Bytes)
    requires DiskInv(h, d, log, torn) && HandleInv(d, s, log) && CutsTile(cut)
    requires d.index == [] && d.objects == map[] && s.refs == map[h([1]) := DanglingRef(h).loc]
    ensures ReconstructFiles(h, FromFiles(h, cut, [("a", [1])], name), StoreFetch(h, d, s, map[])).Err?
  {
    hide DiskInv, HandleInv, StoreFetch, ReconstructFiles, Collide, Holdings, Build;
    var files := [("a", [1])];
    OnePiece(cut);
    BuildMatches(h, cut, files);
    BuiltExport(h, cut, files, name, d, s, log, torn, map[]);
    assert PackedLog(d) == [];
    assert !Readable(h, d, s, map[], FromFiles(h, cut, files, name).chunks[0].hash);
  }
}
