/** The erasure-coded download from a node that runs the event loop and holds the content. */
module HonestFec {
  import opened Basics
  import opened Manifests
  import opened ManifestTheorems
  import opened BuildTheorems
  import opened StoreSpec
  import opened Transfer
  import opened Ledgers
  import opened Receipts
  import opened EventLoops
  import opened Requests
  import opened Fec
  import opened FecTheorems
  import opened FecDownload

  /** The n-th request finds the node in some state; its shelf does not change. */
  function ServedBy(nodes: nat -> Node, verify: Verifier, shelf: Shelf, p: Peer): Remote {
    (n: nat, request: Request) => Ok(Serve(nodes(n), verify, shelf, p, request).1)
  }

  /** The node's shelf for this content: its manifest, and a correct encoding of its stream. */
  ghost predicate Shelved(shelf: Shelf, parse: Parser, decode: SizedDecoder, m: Manifest, blocks: nat, data: Bytes) {
    && m.root in shelf.manifests && parse(shelf.manifests[m.root]) == Some(m)
    && m.root in shelf.symbols
    && Encodes(m.totalSize, blocks, shelf.symbols[m.root], DecoderFor(decode, m.totalSize), data)
  }

  lemma {:induction false} SameAnswers(total: nat, root: Digest, p: Provider, q: Provider, decode: Decoder,
                      st: Fetching)
    requires total <= MAX_FEC_TRANSFER_SIZE && Progressing(total, st)
    requires forall round, start :: p(round, start) == q(round, start)
    ensures FetchFrom(total, root, p, decode, st) == FetchFrom(total, root, q, decode, st)
    decreases RoundBound(total) - st.rounds
  {
    hide Round, Progressing, RoundBound;
    RoundsLeft(total, st);
    var answer := p(st.rounds, st.start);
    assert answer == q(st.rounds, st.start);
    RoundProgresses(total, root, decode, st, answer);
    var v := Round(total, root, decode, st, answer);
    if v.Continue? {
      SameAnswers(total, root, p, q, decode, v.state);
    }
  }

  /** Symbol requests are answered from the encoding, however the requester stands in the ledger. */
  lemma HonestSymbols(nodes: nat -> Node, verify: Verifier, shelf: Shelf, p: Peer, root: Digest, round: nat, start: nat)
    requires root in shelf.symbols
    ensures SymbolsFrom(ServedBy(nodes, verify, shelf, p), root)(round, start)
      == HonestProvider(shelf.symbols[root])(round, start)
  {
    hide SymbolRange, SizeOf, Served;
    var remote := ServedBy(nodes, verify, shelf, p);
    var request := AskSymbols(root, start, FEC_BATCH);
    assert Serve(nodes(round + 1), verify, shelf, p, request).1
      == SymbolsReply(SymbolRange(shelf.symbols[root], start, FEC_BATCH));
    assert remote(round + 1, request) == Ok(Serve(nodes(round + 1), verify, shelf, p, request).1);
  }

  lemma HonestStream(nodes: nat -> Node, verify: Verifier, shelf: Shelf, p: Peer, parse: Parser, decode: SizedDecoder,
                     m: Manifest, blocks: nat, data: Bytes)
    requires Shelved(shelf, parse, decode, m, blocks, data) && m.totalSize <= MAX_FEC_TRANSFER_SIZE
    ensures var r := FetchStream(m, m.root, ServedBy(nodes, verify, shelf, p), decode);
      && (r.Ok? <==> m.totalSize == 0 || m.totalSize >= SMALLEST_SERVED)
      && (if r.Ok? then r.value.0 == data else r == Err(NetError.BadChunk))
      && (r.Ok? ==> if m.totalSize == 0 then r.value.1 == 0 else PaidFor(m.totalSize, shelf.symbols[m.root], r.value.1))
  {
    hide PaidFor, Encodes, Serve, FetchFrom, Progressing;
    var remote, root := ServedBy(nodes, verify, shelf, p), m.root;
    var packets := shelf.symbols[root];
    forall round: nat, start: nat
      ensures SymbolsFrom(remote, root)(round, start) == HonestProvider(packets)(round, start)
    {
      HonestSymbols(nodes, verify, shelf, p, root, round, start);
    }
    hide HonestProvider, ServedBy, SymbolsFrom, DecoderFor;
    FreshProgresses(m.totalSize);
    SameAnswers(m.totalSize, root, SymbolsFrom(remote, root), HonestProvider(packets), DecoderFor(decode, m.totalSize),
      FRESH);
    HonestOutcome(m.totalSize, root, blocks, packets, DecoderFor(decode, m.totalSize), data);
  }

  /** The true stream of a built manifest is accepted, and cut back into the files. */
  lemma BuiltStreamAccepted(h: HashFn, cut: Chunker, files: seq<File>, name: Option<string>)
    requires CutsTile(cut) && |Contents(files)| <= U64_MAX
    ensures var m := FromFiles(h, cut, files, name); AcceptStream(h, cut, m, m.root, Contents(files)) == Ok(files)
  {
    var m := FromFiles(h, cut, files, name);
    BuiltManifestValid(h, cut, files, name);
    BuildSizes(h, cut, files);
    forall i | 0 <= i < |files|
      ensures files[i].0 == m.files[i].path && |files[i].1| == m.files[i].size
    {
      BuildEntry(h, cut, files, i);
    }
    hide Build, Validate, Contents, CutsTile;
    assert m.files[..|files|] == m.files;
    SplitUndoes(m, files, [], |files|);
    EmptyTail(Contents(files));
  }

  lemma ManifestServed(h: HashFn, nodes: nat -> Node, verify: Verifier, shelf: Shelf, p: Peer, parse: Parser,
                      m: Manifest)
    requires m.root in shelf.manifests && parse(shelf.manifests[m.root]) == Some(m)
    requires RootConsistent(h, m) && Validate(m).Ok?
    ensures GetManifest(h, parse, m.root, ServedBy(nodes, verify, shelf, p)(0, AskManifest(m.root))) == Ok(m)
  {
    hide Validate, RootConsistent;
    assert Serve(nodes(0), verify, shelf, p, AskManifest(m.root)).1 == ManifestReply(Some(shelf.manifests[m.root]));
  }

  lemma TooLarge(m: Manifest, remote: Remote, decode: SizedDecoder)
    requires m.totalSize > MAX_FEC_TRANSFER_SIZE
    ensures FetchStream(m, m.root, remote, decode) == Err(BadManifest)
  {
  }

  lemma PaidIsSome(total: nat, packets: seq<Bytes>)
    ensures forall fetched: nat :: PaidFor(total, packets, fetched) ==> fetched > 0
  {
    hide Need;
  }

  /** Exactly when downloading built content from a node that serves it succeeds, and with what. */
  lemma HonestDownload(h: HashFn, cut: Chunker, files: seq<File>, name: Option<string>,
                       nodes: nat -> Node, verify: Verifier, shelf: Shelf, p: Peer, parse: Parser,
                         decode: SizedDecoder, blocks: nat,
                       d: Disk, s: Handle)
    requires CutsTile(cut) && |Contents(files)| <= U64_MAX
    requires Shelved(shelf, parse, decode, FromFiles(h, cut, files, name), blocks, Contents(files))
    ensures var m := FromFiles(h, cut, files, name);
      var out := DownloadFec(h, cut, parse, decode, ServedBy(nodes, verify, shelf, p), m.root, d, s);
      var stored := PutAll(h, d, s, PiecesOf(cut, files));
      if |Contents(files)| > 0x8_0000_0000 then out == Downloaded(d, s, Err(BadManifest), None)
      else if 0 < |Contents(files)| < SMALLEST_SERVED then out == Downloaded(d, s, Err(NetError.BadChunk), None)
      else
        && out.disk == stored.disk && out.handle == stored.handle
        && out.result == (if stored.result.Ok? then Ok(m) else Err(StoreFailed(stored.result.error)))
        && (stored.result.Ok? ==> if m.totalSize == 0 then out.receipt == None
            else out.receipt.Some? && PaidFor(m.totalSize, shelf.symbols[m.root], out.receipt.value))
  {
    hide Encodes, PutAll, PiecesOf, Contents, Validate, Build, CutsTile, AcceptStream, FetchStream;
    var m := FromFiles(h, cut, files, name);
    BuildSizes(h, cut, files);
    BuiltManifestValid(h, cut, files, name);
    if |Contents(files)| <= MAX_FEC_TRANSFER_SIZE {
      HonestStream(nodes, verify, shelf, p, parse, decode, m, blocks, Contents(files));
    } else {
      TooLarge(m, ServedBy(nodes, verify, shelf, p), decode);
    }
    BuiltStreamAccepted(h, cut, files, name);
    ManifestServed(h, nodes, verify, shelf, p, parse, m);
    PaidIsSome(m.totalSize, shelf.symbols[m.root]);
    hide PaidFor;
    hide Shelved, ServedBy, GetManifest, FromFiles;
  }
}
