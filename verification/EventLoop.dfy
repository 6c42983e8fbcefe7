/** The network event loop (crates/np2ptp-net/src/lib.rs): serving with the choke policy, pulling
    receipts from newly met peers, and crediting them. The functions say what each event does to
    the node's state; the class below performs them in place. */
module EventLoops {
  import opened Basics
  import opened Ledgers
  import opened Receipts

  /** A libp2p peer, and the id of an outbound request. */
  type Peer = nat
  type RequestId = nat

  const MAX_SYMBOLS_PER_BATCH: nat := 256

  datatype Internal = PullReceipts | SubmitAck

  datatype Request =
    | AskManifest(root: Digest)
    | AskChunk(hash: Digest)
    | AskSymbol(root: Digest, index: nat)
    | AskSymbols(root: Digest, start: nat, count: nat)
    | Submit(receipt: Receipt)
    | GetReceipts

  datatype Response =
    | ManifestReply(manifest: Option<Bytes>)
    | ChunkReply(chunk: Option<Bytes>)
    | SymbolReply(symbol: Option<Bytes>)
    | SymbolsReply(symbols: seq<Bytes>)
    | ReceiptAck
    | ReceiptsReply(receipts: seq<Receipt>)

  /** What the node can serve from: manifests it provides, chunks its store returns (an error reads
      as absent), and the symbols it can encode for a content id. */
  datatype Shelf = Shelf(manifests: map<Digest, Bytes>, chunks: map<Digest, Bytes>, symbols: map<Digest, seq<Bytes>>)

  datatype Node = Node(
    self: Key,
    ledger: Book<Peer>,
    chokeThreshold: int,
    repPeers: map<Peer, Key>,
    bag: seq<Receipt>,
    internal: map<RequestId, Internal>,
    waiting: set<RequestId>,
    pulledFrom: set<Peer>,
    nextEpoch: nat)

  // ---- identify, close ----

  predicate WantsPull(n: Node, p: Peer) {
    p !in n.pulledFrom && CountersOf(n.ledger, p) == NOTHING
  }

  /** A peer identified itself with an Ed25519 key; `id` is what the swarm would give the pull. */
  function OnIdentified(n: Node, p: Peer, key: Key, id: RequestId): Node {
    var n1 := n.(repPeers := n.repPeers[p := key]);
    if WantsPull(n, p) then n1.(pulledFrom := n1.pulledFrom + {p}, internal := n1.internal[id := PullReceipts])
    else n1
  }

  /** A connection closed, `left` to the same peer remaining. */
  function OnClosed(n: Node, p: Peer, left: nat): Node {
    if left == 0 then n.(repPeers := n.repPeers - {p}, pulledFrom := n.pulledFrom - {p}) else n
  }

  // ---- responses ----

  /** The receipts of one reply that count: valid, about this server, and the first to carry their
      (client, epoch). */
  function Countable(verify: Verifier, server: Key, rs: seq<Receipt>): seq<Receipt> {
    if rs == [] then []
    else
      var before := Countable(verify, server, rs[..|rs| - 1]);
      var r := rs[|rs| - 1];
      if verify(r) && r.server == server && (r.client, r.epoch) !in Stamps(before) then before + [r] else before
  }

  function Stamps(rs: seq<Receipt>): set<(Key, nat)> {
    set i | 0 <= i < |rs| :: (rs[i].client, rs[i].epoch)
  }

  function BytesSum(rs: seq<Receipt>): nat {
    if rs == [] then 0 else BytesSum(rs[..|rs| - 1]) + rs[|rs| - 1].bytes
  }

  function CreditEach(ledger: Book<Peer>, p: Peer, rs: seq<Receipt>): Book<Peer> {
    if rs == [] then ledger else Credited(CreditEach(ledger, p, rs[..|rs| - 1]), p, rs[|rs| - 1].bytes)
  }

  function OnReceipts(n: Node, verify: Verifier, p: Peer, reply: Response): Node {
    if reply.ReceiptsReply? && p in n.repPeers
    then n.(ledger := CreditEach(n.ledger, p, Countable(verify, n.repPeers[p], reply.receipts)))
    else n
  }

  function OnResponse(n: Node, verify: Verifier, p: Peer, id: RequestId, reply: Response): Node {
    var n1 := if reply.ChunkReply? && reply.chunk.Some? then n.(ledger := Received(n.ledger, p, |reply.chunk.value|))
      else n;
    if id in n1.internal then
      var n2 := n1.(internal := n1.internal - {id});
      if n1.internal[id] == PullReceipts then OnReceipts(n2, verify, p, reply) else n2
    else n1.(waiting := n1.waiting - {id})
  }

  /** A caller, not the loop itself, waits for this request. */
  predicate AwaitedBy(n: Node, id: RequestId) { id !in n.internal && id in n.waiting }

  function OnFailure(n: Node, id: RequestId): Node {
    n.(internal := n.internal - {id}, waiting := n.waiting - {id})
  }

  // ---- serving ----

  /** `i64::saturating_neg`. */
  function SaturatingNeg(t: int): int { if t == I64_MIN then I64_MAX else -t }

  predicate Choked(n: Node, p: Peer) {
    Reputation(CountersOf(n.ledger, p)) < SaturatingNeg(n.chokeThreshold)
  }

  function SymbolRange(all: seq<Bytes>, start: nat, count: nat): seq<Bytes> {
    if start >= |all| then [] else all[start..Min(start + count, |all|)]
  }

  function SizeOf(parts: seq<Bytes>): nat { |Flatten(parts)| }

  function Serve(n: Node, verify: Verifier, shelf: Shelf, p: Peer, request: Request): (Node, Response) {
    match request
    case AskManifest(root) =>
      (n, ManifestReply(if root in shelf.manifests then Some(shelf.manifests[root]) else None))
    case AskChunk(hash) =>
      if Choked(n, p) || hash !in shelf.chunks then (n, ChunkReply(None))
      else
        var data := shelf.chunks[hash];
        (n.(ledger := Served(n.ledger, p, |data|)), ChunkReply(Some(data)))
    case AskSymbol(root, index) =>
      if root in shelf.symbols && index < |shelf.symbols[root]| then
        var symbol := shelf.symbols[root][index];
        (n.(ledger := Served(n.ledger, p, |symbol|)), SymbolReply(Some(symbol)))
      else (n, SymbolReply(None))
    case AskSymbols(root, start, count) =>
      var parts := if root in shelf.symbols
        then SymbolRange(shelf.symbols[root], start, Min(count, MAX_SYMBOLS_PER_BATCH)) else [];
      if SizeOf(parts) > 0 then (n.(ledger := Served(n.ledger, p, SizeOf(parts))), SymbolsReply(parts))
      else (n, SymbolsReply(parts))
    case Submit(r) =>
      if verify(r) && r.server == n.self && r.client != r.server then (n.(bag := Inserted(n.bag, r)), ReceiptAck)
      else (n, ReceiptAck)
    case GetReceipts => (n, ReceiptsReply(n.bag))
  }

  // ---- commands ----

  function OnRequestCommand(n: Node, id: RequestId): Node { n.(waiting := n.waiting + {id}) }

  /** Issue a receipt for bytes received, if the peer's key is known. */
  function OnSubmitCommand(n: Node, p: Peer, id: RequestId): Node {
    if p in n.repPeers then n.(nextEpoch := n.nextEpoch + 1, internal := n.internal[id := SubmitAck]) else n
  }

  // ---- the loop as an object ----

  class EventLoop {
    const self: Key
    const ledger: Ledger<Peer>
    const receipts: ReceiptBag
    var chokeThreshold: int
    var repPeers: map<Peer, Key>
    var internal: map<RequestId, Internal>
    var waiting: set<RequestId>
    var pulledFrom: set<Peer>
    var nextEpoch: nat

    ghost function View(): Node
      reads this, ledger, receipts
    {
      Node(self, ledger.peers, chokeThreshold, repPeers, receipts.receipts, internal, waiting, pulledFrom, nextEpoch)
    }

    /** No choking until configured; epochs continue from the clock. */
    constructor (self: Key, ledger: Ledger<Peer>, receipts: ReceiptBag, clock: nat)
      ensures this.ledger == ledger && this.receipts == receipts
      ensures View() == Node(self, ledger.peers, I64_MAX, map[], receipts.receipts, map[], {}, {}, clock)
    {
      this.self, this.ledger, this.receipts := self, ledger, receipts;
      chokeThreshold := I64_MAX;
      repPeers, internal, waiting, pulledFrom := map[], map[], {}, {};
      nextEpoch := clock;
    }

    method Identified(p: Peer, key: Key, id: RequestId) returns (pulls: bool)
      modifies this
      ensures View() == OnIdentified(old(View()), p, key, id)
      ensures pulls == WantsPull(old(View()), p)
    {
      repPeers := repPeers[p := key];
      var c := if p in ledger.peers then ledger.peers[p] else NOTHING;
      pulls := p !in pulledFrom && c == NOTHING;
      if pulls {
        pulledFrom := pulledFrom + {p};
        internal := internal[id := PullReceipts];
      }
    }

    /** A caller's request is on its way; the caller waits for it. */
    method RequestSent(id: RequestId)
      modifies this
      ensures View() == OnRequestCommand(old(View()), id)
    {
      waiting := waiting + {id};
    }

    method SetChokeThreshold(t: int)
      modifies this
      ensures View() == old(View()).(chokeThreshold := t)
    {
      chokeThreshold := t;
    }

    method ConnectionClosed(p: Peer, left: nat)
      modifies this
      ensures View() == OnClosed(old(View()), p, left)
    {
      if left == 0 {
        repPeers := repPeers - {p};
        pulledFrom := pulledFrom - {p};
      }
    }

    /** What is handed to the caller that waits for this request, if one does. */
    method ReceivedResponse(verify: Verifier, p: Peer, id: RequestId,
                        reply: Response) returns (handed: Option<Response>)
      modifies this, ledger
      ensures View() == OnResponse(old(View()), verify, p, id, reply)
      ensures handed == if AwaitedBy(old(View()), id) then Some(reply) else None
    {
      handed := None;
      if reply.ChunkReply? && reply.chunk.Some? {
        ledger.RecordReceived(p, |reply.chunk.value|);
      }
      if id in internal {
        var kind := internal[id];
        internal := internal - {id};
        if kind == PullReceipts {
          HandleReceipts(verify, p, reply);
        }
      } else if id in waiting {
        waiting := waiting - {id};
        handed := Some(reply);
      }
    }

    method HandleReceipts(verify: Verifier, p: Peer, reply: Response)
      modifies ledger
      ensures View() == OnReceipts(old(View()), verify, p, reply)
    {
      if !reply.ReceiptsReply? || p !in repPeers {
        return;
      }
      var expected := repPeers[p];
      var seen: set<(Key, nat)> := {};
      ghost var rs := reply.receipts;
      ghost var before := ledger.peers;
      for i := 0 to |reply.receipts|
        invariant seen == Stamps(Countable(verify, expected, rs[..i]))
        invariant ledger.peers == CreditEach(before, p, Countable(verify, expected, rs[..i]))
      {
        var r := reply.receipts[i];
        assert rs[..i + 1][..i] == rs[..i];
        if verify(r) && r.server == expected && (r.client, r.epoch) !in seen {
          ghost var counted := Countable(verify, expected, rs[..i]);
          StampsSnoc(counted, r);
          assert (counted + [r])[..|counted|] == counted;
          seen := seen + {(r.client, r.epoch)};
          ledger.CreditReceipt(p, r.bytes);
        }
      }
      assert rs[..|rs|] == rs;
    }

    /** Whether a caller was waiting, and is told that its request failed. */
    method RequestFailed(id: RequestId) returns (told: bool)
      modifies this
      ensures View() == OnFailure(old(View()), id)
      ensures told == (id in old(waiting))
    {
      internal := internal - {id};
      told := id in waiting;
      waiting := waiting - {id};
    }

    method ServeRequest(verify: Verifier, shelf: Shelf, p: Peer, request: Request) returns (response: Response)
      modifies ledger, receipts
      ensures (View(), response) == Serve(old(View()), verify, shelf, p, request)
    {
      hide Flatten, SymbolRange, Inserted;
      match request
      case AskManifest(root) =>
        response := ManifestReply(if root in shelf.manifests then Some(shelf.manifests[root]) else None);
      case AskChunk(hash) =>
        var c := if p in ledger.peers then ledger.peers[p] else NOTHING;
        if Reputation(c) < SaturatingNeg(chokeThreshold) || hash !in shelf.chunks {
          return ChunkReply(None);
        }
        ledger.RecordServed(p, |shelf.chunks[hash]|);
        response := ChunkReply(Some(shelf.chunks[hash]));
      case AskSymbol(root, index) =>
        if root !in shelf.symbols || index >= |shelf.symbols[root]| {
          return SymbolReply(None);
        }
        ledger.RecordServed(p, |shelf.symbols[root][index]|);
        response := SymbolReply(Some(shelf.symbols[root][index]));
      case AskSymbols(root, start, count) =>
        var parts := if root in shelf.symbols
          then SymbolRange(shelf.symbols[root], start, Min(count, MAX_SYMBOLS_PER_BATCH)) else [];
        if SizeOf(parts) > 0 {
          ledger.RecordServed(p, SizeOf(parts));
        }
        response := SymbolsReply(parts);
      case Submit(r) =>
        if verify(r) && r.server == self && r.client != r.server {
          receipts.Insert(r);
        }
        response := ReceiptAck;
      case GetReceipts =>
        response := ReceiptsReply(receipts.receipts);
    }

    /** What the receipt sent, if one is, says: whom it credits, for how much, under which epoch. */
    method SubmitReceipt(p: Peer, bytes: nat, id: RequestId) returns (terms: Option<(Key, nat, nat)>)
      modifies this
      ensures View() == OnSubmitCommand(old(View()), p, id)
      ensures terms == if p in repPeers then Some((repPeers[p], bytes, old(nextEpoch))) else None
    {
      terms := None;
      if p in repPeers {
        terms := Some((repPeers[p], bytes, nextEpoch));
        nextEpoch := nextEpoch + 1;
        internal := internal[id := SubmitAck];
      }
    }
  }

  lemma StampsSnoc(rs: seq<Receipt>, r: Receipt)
    ensures Stamps(rs + [r]) == Stamps(rs) + {(r.client, r.epoch)}
  {
    var all := rs + [r];
    assert all[|rs|] == r;
    forall s | s in Stamps(rs)
      ensures s in Stamps(all)
    {
      var i :| 0 <= i < |rs| && (rs[i].client, rs[i].epoch) == s;
      assert all[i] == rs[i];
    }
  }
}
