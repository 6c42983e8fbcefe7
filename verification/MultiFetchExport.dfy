/** Exporting what a multi-provider download brought: exactly when it succeeds. */
module MultiFetchExport {
  import opened Basics
  import opened Merkle
  import opened Manifests
  import opened DeclaredLengths
  import opened IndexLog
  import opened StoreSpec
  import opened StoreInvariant
  import opened Reading
  import opened Transfer
  import opened EventLoops
  import opened Requests
  import opened MultiFetch
  import opened MultiFetchTheorems

  // ---- which chunks will be readable, seen before the download ----

  /** What the download puts, in completion order. */
  ghost function Arrivals(h: HashFn, m: Manifest, providers: seq<Peer>, replies: Replies, schedule: Schedule, d: Disk,
                      s: Handle): seq<Bytes>
    requires Schedules(schedule) && providers != []
  {
    var job := JobFor(h, m, providers, replies, d, s);
    CompletesInRange(schedule(|job.missing|), |job.missing|);
    Accepted(OutcomesOf(job, schedule(|job.missing|)))
  }

  /** Every chunk of the manifest is new to the store, or readable where it is known to be. */
  ghost predicate ManifestWelcome(h: HashFn, d: Disk, s: Handle, log: seq<IndexEntry>, sources: Sources, m: Manifest,
                      arrivals: seq<Bytes>) {
    forall i :: 0 <= i < |m.chunks| ==>
      Welcome(h, d, SeenRefs(h, d, s, log, arrivals).0, log, sources, arrivals, m.chunks[i].hash)
  }

  lemma ArrivalsOrStored(h: HashFn, m: Manifest, providers: seq<Peer>, replies: Replies, schedule: Schedule,
                         d: Disk, s: Handle, log: seq<IndexEntry>, i: nat)
    requires Schedules(schedule) && providers != [] && DiskInv(h, d, log, []) && HandleInv(d, s, log) && i < |m.chunks|
    requires var job := JobFor(h, m, providers, replies, d, s); forall slot: nat :: slot < |job.missing| ==>
      Answered(job, slot)
    ensures var x := m.chunks[i].hash;
      x in PieceHashes(h, Arrivals(h, m, providers, replies, schedule, d, s)) || Stored(d, s, log, x)
  {
    hide DiskInv, HandleInv, Scan, OutcomesOf, Accepted, Deliver, FirstFailure, Stored, Answered;
    var job := JobFor(h, m, providers, replies, d, s);
    var order := schedule(|job.missing|);
    CompletesInRange(order, |job.missing|);
    ScanMeaning(h, d, s, log, m, |m.chunks|);
    if i in job.missing {
      var slot :| 0 <= slot < |job.missing| && job.missing[slot] == i;
      var os := OutcomesOf(job, order);
      assert Completes(order, |job.missing|);
      AllDelivered(job, order);
      FailureMeaning(os);
      SlotCompletes(order, |job.missing|, slot);
      var t :| 0 <= t < |order| && order[t] == slot;
      OutcomeAt(job, order, t);
      DeliverMeaning(job, slot);
      assert h(Accepted(os)[t]) == m.chunks[i].hash;
    }
  }

  /** After a successful download, `export` succeeds if and only if every chunk was welcome before
      it and the chunks really hold as many bytes as the manifest declares in total. The download
      itself checks neither. */
  lemma ExportAfterDownload(h: HashFn, parse: Parser, root: Digest, providers: seq<Peer>, replies: Replies,
                      schedule: Schedule,
                            d: Disk, s: Handle, log: seq<IndexEntry>, m: Manifest, sources: Sources)
    requires Schedules(schedule)
    requires DiskInv(h, d, log, []) && HandleInv(d, s, log)
    requires providers != [] && PickManifest(h, parse, root, replies, |providers|) == Ok(m)
    requires var job := JobFor(h, m, providers, replies, d, s);
      !PutFailed(job, schedule, d, s) && forall slot: nat :: slot < |job.missing| ==> Answered(job, slot)
    ensures var out := DownloadMulti(h, parse, root, providers, replies, schedule, d, s);
      var fetch := StoreFetch(h, out.disk, out.handle, sources);
      && out.result == Ok(m)
      && (Reconstruct(h, m, fetch).Ok? <==>
            && ManifestWelcome(h, d, Scan(d, s, m, |m.chunks|).1, log, sources, m,
              Arrivals(h, m, providers, replies, schedule, d, s))
            && TrueSum(m, fetch, 0, |m.chunks|) == m.totalSize)
  {
    hide DiskInv, HandleInv, Scan, OutcomesOf, Accepted, Deliver, FirstFailure, Stored, PutAll, Welcome, SeenRefs,
      Readable, Reconstruct, TrueSum, StoreFetch,
      PickManifest, Answered, RootConsistent, Validate, Total, Tally, Payable, PieceHashes, Schedules;
    var log' := MultiFetchOutcome(h, parse, root, providers, replies, schedule, d, s, log, m);
    var out := DownloadMulti(h, parse, root, providers, replies, schedule, d, s);
    PickedIsValid(h, parse, root, replies, |providers|);
    ExportsIff(h, m, out.disk, out.handle, log', [], sources);
    ReadableAfter(h, m, providers, replies, schedule, d, s, log, sources);
    DownloadedState(h, parse, root, providers, replies, schedule, d, s, m);
  }

  lemma DownloadedState(h: HashFn, parse: Parser, root: Digest, providers: seq<Peer>, replies: Replies,
                      schedule: Schedule, d: Disk, s: Handle, m: Manifest)
    requires Schedules(schedule) && providers != [] && PickManifest(h, parse, root, replies, |providers|) == Ok(m)
    ensures var out := DownloadMulti(h, parse, root, providers, replies, schedule, d, s);
      var o := PutAll(h, d, Scan(d, s, m, |m.chunks|).1, Arrivals(h, m, providers, replies, schedule, d, s));
      out.disk == o.disk && out.handle == o.handle
  {
    hide PutAll, PickManifest, Scan, OutcomesOf, Accepted;
  }

  lemma {:induction false} PickedIsValid(h: HashFn, parse: Parser, root: Digest, replies: Replies, n: nat)
    requires PickManifest(h, parse, root, replies, n).Ok?
    ensures var m := PickManifest(h, parse, root, replies, n).value;
      m.root == root && RootConsistent(h, m) && Validate(m).Ok?
  {
    hide RootConsistent, Validate;
    if PickManifest(h, parse, root, replies, n - 1).Ok? {
      PickedIsValid(h, parse, root, replies, n - 1);
    }
  }

  lemma ReadableAfter(h: HashFn, m: Manifest, providers: seq<Peer>, replies: Replies, schedule: Schedule,
                      d: Disk, s: Handle, log: seq<IndexEntry>, sources: Sources)
    requires Schedules(schedule) && providers != []
    requires DiskInv(h, d, log, []) && HandleInv(d, s, log)
    requires var job := JobFor(h, m, providers, replies, d, s);
      !PutFailed(job, schedule, d, s) && forall slot: nat :: slot < |job.missing| ==> Answered(job, slot)
    ensures var s1, arrivals := Scan(d, s, m, |m.chunks|).1, Arrivals(h, m, providers, replies, schedule, d, s);
      var o := PutAll(h, d, s1, arrivals);
      AllReadable(h, o.disk, o.handle, sources, m) <==> ManifestWelcome(h, d, s1, log, sources, m, arrivals)
  {
    hide DiskInv, HandleInv, Scan, OutcomesOf, Accepted, Deliver, FirstFailure, PutAll, Welcome, SeenRefs, Readable,
      Answered, PieceHashes, LogKeys;
    var s1, arrivals := Scan(d, s, m, |m.chunks|).1, Arrivals(h, m, providers, replies, schedule, d, s);
    var job := JobFor(h, m, providers, replies, d, s);
    var order := schedule(|job.missing|);
    assert Completes(order, |job.missing|);
    AllDelivered(job, order);
    ScanMeaning(h, d, s, log, m, |m.chunks|);
    var o := PutAll(h, d, s1, arrivals);
    forall i | 0 <= i < |m.chunks|
      ensures Readable(h, o.disk, o.handle, sources, m.chunks[i].hash) <==>
        Welcome(h, d, SeenRefs(h, d, s1, log, arrivals).0, log, sources, arrivals, m.chunks[i].hash)
    {
      ArrivalsOrStored(h, m, providers, replies, schedule, d, s, log, i);
      ReadableIffWelcome(h, d, s1, log, sources, arrivals, m.chunks[i].hash);
    }
  }

  // ---- a manifest with a wrong total ----

  /** One provider that hands out the given manifest, and the byte 1 for every chunk. */
  function OneByteReplies(text: Bytes): Replies {
    Replies(_ => Ok(ManifestReply(Some(text))), (_, _) => Ok(ChunkReply(Some([1]))))
  }

  lemma OnlySlot(order: seq<nat>)
    requires Completes(order, 1)
    ensures order == [0]
  {
    CompletesInRange(order, 1);
  }

  lemma OneByteArrives(h: HashFn, text: Bytes, schedule: Schedule, p: Peer)
    requires Schedules(schedule)
    ensures Scan(NEW_DISK, NEW_HANDLE, Mislabelled(h), 1) == ([0], NEW_HANDLE)
    ensures Arrivals(h, Mislabelled(h), [p], OneByteReplies(text), schedule, NEW_DISK, NEW_HANDLE) == [[1]]
    ensures var job := JobFor(h, Mislabelled(h), [p], OneByteReplies(text), NEW_DISK, NEW_HANDLE);
      job.missing == [0] && FirstFailure(OutcomesOf(job, [0])) == None
  {
    hide Root;
    var m := Mislabelled(h);
    assert Scan(NEW_DISK, NEW_HANDLE, m, 0) == ([], NEW_HANDLE);
    assert HasStep(NEW_DISK, NEW_HANDLE, m.chunks[0].hash) == (false, NEW_HANDLE);
    assert [] + [0] == [0];
    var job := JobFor(h, m, [p], OneByteReplies(text), NEW_DISK, NEW_HANDLE);
    assert Completes(schedule(1), 1);
    OnlySlot(schedule(1));
    assert Turn(1, 0, 0) == 0;
    assert Deliver(job, 0) == Ok(Delivery(0, [1], p));
    assert [0][..0] == [];
    var os := OutcomesOf(job, [0]);
    assert os == [Deliver(job, 0)] && os[..0] == [];
  }

  lemma OneByteStored(h: HashFn, sources: Sources)
    ensures var o := PutAll(h, NEW_DISK, NEW_HANDLE, [[1]]);
      o.result == Ok(()) && StoreFetch(h, o.disk, o.handle, sources)(h([1])) == Some([1])
  {
    hide FormatEntry;
    assert [[1]][..0] == [];
    var p := PutStep(h, NEW_DISK, NEW_HANDLE, [1]);
    assert p.result == Ok((h([1]), true));
    assert p.disk.packs[0] == [1] && p.handle.index[h([1])] == PackLoc(0, 0, 1);
    assert [1][0..1] == [1];
  }

  /** It downloads into an empty store without complaint, and the result cannot be exported. */
  lemma MislabelledDownloads(h: HashFn, parse: Parser, text: Bytes, schedule: Schedule, p: Peer, sources: Sources)
    requires Schedules(schedule) && parse(text) == Some(Mislabelled(h))
    ensures var m := Mislabelled(h);
      var out := DownloadMulti(h, parse, m.root, [p], OneByteReplies(text), schedule, NEW_DISK, NEW_HANDLE);
      && out.result == Ok(m)
      && Reconstruct(h, m, StoreFetch(h, out.disk, out.handle, sources)) == Err(SizeMismatch(1, 2))
  {
    hide Root, Validate, RootConsistent, PutAll, Scan, OutcomesOf, FirstFailure, Accepted, StoreFetch, Tally, Payable,
      Reconstruct;
    var m := Mislabelled(h);
    MislabelledValid(h);
    OneByteArrives(h, text, schedule, p);
    OneByteStored(h, sources);
    assert Completes(schedule(1), 1);
    OnlySlot(schedule(1));
    assert PickManifest(h, parse, m.root, OneByteReplies(text), 1) == Ok(m) by {
      assert PickManifest(h, parse, m.root, OneByteReplies(text), 0).Err?;
    }
    var out := DownloadMulti(h, parse, m.root, [p], OneByteReplies(text), schedule, NEW_DISK, NEW_HANDLE);
    MislabelledFails(h, StoreFetch(h, out.disk, out.handle, sources));
  }
}
