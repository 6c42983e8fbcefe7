/** From one node's files to another node's files: built content, served by nodes that run the event
    loop, downloaded by either route into a store in any state, and exported again. */
module TwoNodes {
  import opened Basics
  import opened Manifests
  import opened ManifestTheorems
  import opened BuildTheorems
  import opened IndexLog
  import opened StoreSpec
  import opened StoreInvariant
  import opened Reading
  import opened Transfer
  import opened RoundTrip
  import opened Ledgers
  import opened Receipts
  import opened EventLoops
  import opened EventLoopAccounts
  import opened Requests
  import opened Fec
  import opened FecTheorems
  import opened FecDownload
  import opened HonestFec
  import opened MultiFetch
  import opened MultiFetchTheorems
  import opened MultiFetchExport

  /** Exporting the tree gives the files, or one of their pieces collides with what the store held. */
  ghost predicate ArrivesAs(h: HashFn, cut: Chunker, files: seq<File>, m: Manifest, d: Disk, s: Handle,
                      sources: Sources) {
    var pieces := PiecesOf(cut, files);
    || ReconstructFiles(h, m, StoreFetch(h, d, s, sources)) == Ok(files)
    || Collide(h, PieceSet(pieces), Holdings(h, d, s, sources, PieceHashes(h, pieces)))
  }

  ghost predicate Fails(h: HashFn, m: Manifest, d: Disk, s: Handle, sources: Sources) {
    ReconstructFiles(h, m, StoreFetch(h, d, s, sources)).Err?
  }

  /** The erasure-coded route. Content within the limits, from a node that serves it, into a store
      with room: the download succeeds, and the export gives exactly the files, or a collision, if
      every piece was welcome, and fails otherwise. */
  lemma FecTransfer(h: HashFn, cut: Chunker, files: seq<File>, name: Option<string>,
                    nodes: nat -> Node, verify: Verifier, shelf: Shelf, p: Peer, parse: Parser, decode: SizedDecoder,
                    blocks: nat, d: Disk, s: Handle, log: seq<IndexEntry>, sources: Sources)
    requires CutsTile(cut) && Shelved(shelf, parse, decode, FromFiles(h, cut, files, name), blocks, Contents(files))
    requires |Contents(files)| == 0 || SMALLEST_SERVED <= |Contents(files)| <= MAX_FEC_TRANSFER_SIZE
    requires DiskInv(h, d, log, []) && HandleInv(d, s, log) && Room(d, s, |PiecesOf(cut, files)|, |Contents(files)|)
    ensures var m := FromFiles(h, cut, files, name);
      var out := DownloadFec(h, cut, parse, decode, ServedBy(nodes, verify, shelf, p), m.root, d, s);
      && out.result == Ok(m)
      && if AllWelcome(h, d, s, log, sources, PiecesOf(cut, files))
         then ArrivesAs(h, cut, files, m, out.disk, out.handle, sources)
         else Fails(h, m, out.disk, out.handle, sources)
  {
    hide CutsTile, Shelved, PiecesOf, FromFiles, DiskInv, HandleInv, DownloadFec, PutAll, AllWelcome, ReconstructFiles,
      StoreFetch, Collide, Holdings, PaidFor, Contents;
    HonestDownload(h, cut, files, name, nodes, verify, shelf, p, parse, decode, blocks, d, s);
    RoundTripWithRoom(h, cut, files, name, d, s, log, sources);
  }

  /** What the providers of a job reply is what their event loops answer, in whatever states the
      requests find them. */
  ghost predicate AnsweredByLoops(job: Job, nodes: (nat, nat) -> Node, verify: Verifier, shelves: nat -> Shelf,
                      me: Peer)
    requires Sane(job)
  {
    forall slot: nat, j: nat :: slot < |job.missing| && j < |job.providers| ==>
      job.replies.chunk(slot, j)
        == Ok(Serve(nodes(slot, j), verify, shelves(j), me, AskChunk(job.m.chunks[job.missing[slot]].hash)).1)
  }

  /** Provider `j` holds the chunk of the slot and, in the state the request finds it in, is owed no
      more than its threshold. */
  ghost predicate Willing(job: Job, nodes: (nat, nat) -> Node, shelves: nat -> Shelf, me: Peer, slot: nat, j: nat)
    requires Sane(job) && slot < |job.missing|
  {
    var n, x := nodes(slot, j), job.m.chunks[job.missing[slot]].hash;
    && x in shelves(j).chunks && job.h(shelves(j).chunks[x]) == x
    && I64_MIN <= n.chokeThreshold <= I64_MAX
    && Net(CountersOf(n.ledger, me)) >= SaturatingNeg(n.chokeThreshold)
  }

  ghost predicate SomeWilling(job: Job, nodes: (nat, nat) -> Node, shelves: nat -> Shelf, me: Peer, slot: nat)
    requires Sane(job) && slot < |job.missing|
  {
    exists j: nat :: j < |job.providers| && Willing(job, nodes, shelves, me, slot, j)
  }

  lemma WillingAnswers(job: Job, nodes: (nat, nat) -> Node, verify: Verifier, shelves: nat -> Shelf, me: Peer,
                      slot: nat, j: nat)
    requires Sane(job) && slot < |job.missing| && j < |job.providers|
    requires AnsweredByLoops(job, nodes, verify, shelves, me) && Willing(job, nodes, shelves, me, slot, j)
    ensures Answers(job, slot, j)
  {
    hide Serve, Net, SaturatingNeg, CountersOf;
    ChunkServedIff(nodes(slot, j), verify, shelves(j), me, job.m.chunks[job.missing[slot]].hash);
  }

  /** The multi-provider route. If for every missing chunk some listed provider holds it and does not
      choke us when asked, and no put fails, the download succeeds, and the export gives exactly the
      files, or a collision, if every chunk was welcome, and fails otherwise. */
  lemma MultiTransfer(h: HashFn, cut: Chunker, files: seq<File>, name: Option<string>, parse: Parser,
                      providers: seq<Peer>,
                      replies: Replies, schedule: Schedule, nodes: (nat, nat) -> Node, verify: Verifier,
                        shelves: nat -> Shelf,
                      me: Peer, d: Disk, s: Handle, log: seq<IndexEntry>, sources: Sources)
    requires CutsTile(cut) && |Contents(files)| <= U64_MAX && Schedules(schedule) && providers != []
    requires DiskInv(h, d, log, []) && HandleInv(d, s, log)
    requires var m := FromFiles(h, cut, files, name);
      && PickManifest(h, parse, m.root, replies, |providers|) == Ok(m)
      && var job := JobFor(h, m, providers, replies, d, s);
      && !PutFailed(job, schedule, d, s)
      && AnsweredByLoops(job, nodes, verify, shelves, me)
      && forall slot: nat :: slot < |job.missing| ==> SomeWilling(job, nodes, shelves, me, slot)
    ensures var m := FromFiles(h, cut, files, name);
      var out := DownloadMulti(h, parse, m.root, providers, replies, schedule, d, s);
      var arrivals := Arrivals(h, m, providers, replies, schedule, d, s);
      && out.result == Ok(m)
      && if ManifestWelcome(h, d, Scan(d, s, m, |m.chunks|).1, log, sources, m, arrivals)
         then ArrivesAs(h, cut, files, m, out.disk, out.handle, sources)
         else Fails(h, m, out.disk, out.handle, sources)
  {
    hide CutsTile, PiecesOf, FromFiles, DiskInv, HandleInv, DownloadMulti, PutAll, ManifestWelcome, ReconstructFiles,
      Contents,
      StoreFetch, Collide, Holdings, PickManifest, PutFailed, AnsweredByLoops, Willing, Scan, Answers, Schedules,
        AllReadable,
      Arrivals, JobFor, Complete, Reports;
    var m := FromFiles(h, cut, files, name);
    var job := JobFor(h, m, providers, replies, d, s);
    forall slot: nat | slot < |job.missing|
      ensures Answered(job, slot)
    {
      assert SomeWilling(job, nodes, shelves, me, slot);
      var j: nat :| j < |job.providers| && Willing(job, nodes, shelves, me, slot, j);
      WillingAnswers(job, nodes, verify, shelves, me, slot, j);
    }
    var log' := MultiFetchOutcome(h, parse, m.root, providers, replies, schedule, d, s, log, m);
    var out := DownloadMulti(h, parse, m.root, providers, replies, schedule, d, s);
    ReadableAfter(h, m, providers, replies, schedule, d, s, log, sources);
    DownloadedState(h, parse, m.root, providers, replies, schedule, d, s, m);
    BuiltExport(h, cut, files, name, out.disk, out.handle, log', [], sources);
  }
}
