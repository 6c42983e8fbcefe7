/** Conservation over whole runs of the event loop: every counter is exactly the bytes that moved,
    the bag is exactly the best of the genuine receipts submitted, epochs are never reused. */
module EventLoopAccounts {
  import opened Basics
  import opened Ledgers
  import opened Receipts
  import opened EventLoops
  import opened EventLoopTheorems

  // ---- what an event moves, read off the messages alone ----

  function Payload(reply: Response): nat {
    match reply
    case ChunkReply(Some(bytes)) => |bytes|
    case SymbolReply(Some(bytes)) => |bytes|
    case SymbolsReply(parts) => SizeOf(parts)
    case _ => 0
  }

  /** Chunk bytes that arrive from `p`. Symbols are not counted. */
  function TakenFrom(w: World, e: Event, p: Peer): nat {
    if e.Respond? && e.id in w.outstanding && w.outstanding[e.id] == p && e.reply.ChunkReply? then Payload(e.reply)
      else 0
  }

  /** Chunk and symbol bytes sent to `p`. */
  function GivenTo(verify: Verifier, w: World, e: Event, p: Peer): nat {
    if e.Incoming? && e.p == p then Payload(Serve(w.node, verify, e.shelf, p, e.request).1) else 0
  }

  lemma StepTaken(verify: Verifier, w: World, e: Event, p: Peer)
    ensures Account(Next(verify, w, e), p).servedToUs == Min(Account(w, p).servedToUs + TakenFrom(w, e, p), U64_MAX)
  {
    hide CreditEach, Countable, BytesSum, Inserted, SymbolRange, Flatten;
    if e.Respond? && e.id in w.outstanding && e.reply.ReceiptsReply? {
      var q := w.outstanding[e.id];
      if q in w.node.repPeers {
        CreditEachSum(w.node.ledger, q, Countable(verify, w.node.repPeers[q], e.reply.receipts));
      }
    }
  }

  lemma StepGiven(verify: Verifier, w: World, e: Event, p: Peer)
    ensures Account(Next(verify, w, e), p).weServed == Min(Account(w, p).weServed + GivenTo(verify, w, e, p), U64_MAX)
  {
    hide CreditEach, Countable, BytesSum, Inserted, SymbolRange, Flatten;
    if e.Respond? && e.id in w.outstanding && e.reply.ReceiptsReply? {
      var q := w.outstanding[e.id];
      if q in w.node.repPeers {
        CreditEachSum(w.node.ledger, q, Countable(verify, w.node.repPeers[q], e.reply.receipts));
      }
    }
  }

  // ---- totals over a run ----

  datatype Moved = Moved(taken: nat, given: nat, credit: nat)

  function MovedIn(verify: Verifier, worlds: seq<World>, events: seq<Event>, p: Peer, n: nat): Moved
    requires n <= |events| && n <= |worlds|
  {
    if n == 0 then Moved(0, 0, 0)
    else
      var m := MovedIn(verify, worlds, events, p, n - 1);
      var w, e := worlds[n - 1], events[n - 1];
      Moved(m.taken + TakenFrom(w, e, p), m.given + GivenTo(verify, w, e, p), m.credit + CreditOf(verify, w, e, p))
  }

  /** Conservation: in every run each counter of each peer is its initial value plus exactly the
      bytes that moved, cut off at u64 once, however the peers' events interleave. */
  lemma {:induction false} AccountsExact(verify: Verifier, worlds: seq<World>, events: seq<Event>, p: Peer, n: nat)
    requires Run(verify, worlds, events) && n < |worlds|
    ensures |worlds| == |events| + 1
    ensures var a, m := Account(worlds[0], p), MovedIn(verify, worlds, events, p, n);
      Account(worlds[n], p) == Counters(
        Min(a.servedToUs + m.taken, U64_MAX), Min(a.weServed + m.given, U64_MAX), Min(a.credited + m.credit, U64_MAX))
  {
    hide Run, Next, CreditOf, TakenFrom, GivenTo, Account;
    RunShape(verify, worlds, events);
    if n > 0 {
      AccountsExact(verify, worlds, events, p, n - 1);
      var w, e := worlds[n - 1], events[n - 1];
      StepTaken(verify, w, e, p);
      StepGiven(verify, w, e, p);
      StepAccount(verify, w, e, p);
    }
  }

  /** The choke bound in bytes: what a peer is sent in chunks is paid for by the chunks it gave and
      its credit, before and during the run, up to the threshold and one chunk. */
  lemma ChokeBoundInBytes(verify: Verifier, worlds: seq<World>, events: seq<Event>, p: Peer, t: nat, most: nat, n: nat)
    requires Run(verify, worlds, events) && n < |worlds| && t <= I64_MAX
    requires forall i :: 0 <= i < |worlds| ==> worlds[i].node.chokeThreshold <= t
    requires forall i :: 0 <= i < |events| ==> ChunkSent(verify, worlds[i], events[i], p) <= most
    requires Account(worlds[n], p).weServed < U64_MAX
    ensures |worlds| == |events| + 1
    ensures var a, m := Account(worlds[0], p), MovedIn(verify, worlds, events, p, n);
      ChunksSent(verify, worlds, events, p, n) <= a.servedToUs + m.taken + a.credited + m.credit + t + most
  {
    hide Run, ChunksSent, MovedIn, Account, ChunkSent;
    ChokeBound(verify, worlds, events, p, t, most, n);
    AccountsExact(verify, worlds, events, p, n);
  }

  /** For every threshold, a chunk the node holds is sent if and only if the peer's unclamped score
      is at least the saturating negation of the threshold. */
  lemma ChunkServedIff(n: Node, verify: Verifier, shelf: Shelf, p: Peer, x: Digest)
    requires I64_MIN <= n.chokeThreshold <= I64_MAX && x in shelf.chunks
    ensures var c, reply := CountersOf(n.ledger, p), Serve(n, verify, shelf, p, AskChunk(x)).1;
      reply == ChunkReply(if Net(c) >= SaturatingNeg(n.chokeThreshold) then Some(shelf.chunks[x]) else None)
  {
    ChokedIff(n, p);
    hide Choked, CountersOf, Served, SaturatingNeg;
  }

  /** The clamp of the score never changes who is choked. The saturating negation does at one
      threshold, for one score: `i64::MIN`, where a peer ahead by exactly `i64::MAX` is served
      although its debt exceeds the threshold. */
  lemma ChokedIff(n: Node, p: Peer)
    requires I64_MIN <= n.chokeThreshold <= I64_MAX
    ensures var c, t := CountersOf(n.ledger, p), n.chokeThreshold;
      && (Choked(n, p) <==> Net(c) < SaturatingNeg(t))
      && ((Choked(n, p) <==> c.weServed > c.servedToUs + c.credited + t) <==> !(t == I64_MIN && Net(c) == I64_MAX))
  {
    hide CountersOf;
  }

  /** Such a peer: it gave `i64::MAX` bytes and took none. */
  lemma SaturatedThresholdServes(n: Node, p: Peer)
    requires n.chokeThreshold == I64_MIN && CountersOf(n.ledger, p) == Counters(I64_MAX, 0, 0)
    ensures var c := CountersOf(n.ledger, p);
      !Choked(n, p) && c.weServed > c.servedToUs + c.credited + n.chokeThreshold
  {
    hide CountersOf;
  }

  // ---- the bag ----

  /** The genuine receipts about this node that others submitted, in order. */
  function Submissions(verify: Verifier, self: Key, events: seq<Event>): seq<Receipt> {
    if events == [] then []
    else
      var before := Submissions(verify, self, events[..|events| - 1]);
      var e := events[|events| - 1];
      if e.Incoming? && e.request.Submit? && verify(e.request.receipt) && e.request.receipt.server == self
        && e.request.receipt.client != self
      then before + [e.request.receipt] else before
  }

  lemma StepBag(verify: Verifier, w: World, e: Event)
    ensures var n, n' := w.node, Next(verify, w, e).node;
      && n'.self == n.self
      && n'.bag ==
         if e.Incoming? && e.request.Submit? && verify(e.request.receipt) && e.request.receipt.server == n.self
           && e.request.receipt.client != n.self
         then Inserted(n.bag, e.request.receipt) else n.bag
  {
    hide CreditEach, Countable, Inserted, SymbolRange, Flatten;
  }

  lemma {:induction false} BagIsHistory(verify: Verifier, worlds: seq<World>, events: seq<Event>, n: nat)
    requires Run(verify, worlds, events) && n < |worlds| && worlds[0].node.bag == []
    ensures n <= |events| && worlds[n].node.self == worlds[0].node.self
    ensures worlds[n].node.bag == BagAfter(Submissions(verify, worlds[0].node.self, events[..n]))
  {
    hide Run, Next, Inserted;
    RunShape(verify, worlds, events);
    if n > 0 {
      BagIsHistory(verify, worlds, events, n - 1);
      StepBag(verify, worlds[n - 1], events[n - 1]);
      assert events[..n][..n - 1] == events[..n - 1];
      var before := Submissions(verify, worlds[0].node.self, events[..n - 1]);
      var all := Submissions(verify, worlds[0].node.self, events[..n]);
      assert all == before || all[..|all| - 1] == before;
    }
  }

  /** In every run from an empty bag, the bag holds the best of the genuine receipts submitted:
      at most fifty, largest first, none twice, none forged, and none larger than a kept one lost. */
  lemma BagHoldsBestGenuine(verify: Verifier, worlds: seq<World>, events: seq<Event>, n: nat)
    requires Run(verify, worlds, events) && n < |worlds| && worlds[0].node.bag == []
    ensures n <= |events|
    ensures BestKept(worlds[n].node.bag, Submissions(verify, worlds[0].node.self, events[..n]))
    ensures forall r :: r in worlds[n].node.bag ==> verify(r) && r.server == worlds[0].node.self != r.client
  {
    hide Run, Next, Inserted, BagAfter;
    BagIsHistory(verify, worlds, events, n);
    BagKeepsLargest(Submissions(verify, worlds[0].node.self, events[..n]));
    SubmissionsGenuine(verify, worlds[0].node.self, events[..n]);
  }

  lemma {:induction false} SubmissionsGenuine(verify: Verifier, self: Key, events: seq<Event>)
    ensures forall r :: r in Submissions(verify, self, events) ==> verify(r) && r.server == self != r.client
  {
    if events != [] {
      SubmissionsGenuine(verify, self, events[..|events| - 1]);
    }
  }

  // ---- epochs ----

  ghost predicate Issues(w: World, e: Event) {
    e.SendReceipt? && e.p in w.node.repPeers
  }

  lemma {:induction false} EpochsGrow(verify: Verifier, worlds: seq<World>, events: seq<Event>, i: nat, j: nat)
    requires Run(verify, worlds, events) && i <= j < |worlds|
    ensures worlds[i].node.nextEpoch <= worlds[j].node.nextEpoch
    decreases j
  {
    hide Next, Run;
    RunShape(verify, worlds, events);
    if i < j {
      EpochsGrow(verify, worlds, events, i, j - 1);
      StepEpoch(verify, worlds[j - 1], events[j - 1]);
    }
  }

  lemma StepEpoch(verify: Verifier, w: World, e: Event)
    ensures Next(verify, w, e).node.nextEpoch == if Issues(w, e) then w.node.nextEpoch + 1 else w.node.nextEpoch
  {
    hide CreditEach, Countable, Inserted, SymbolRange, Flatten;
  }

  /** No two receipts a node issues in one run carry the same epoch, so no two of them are counted
      as one by whoever pulls them. */
  lemma EpochsDistinct(verify: Verifier, worlds: seq<World>, events: seq<Event>, i: nat, j: nat)
    requires Run(verify, worlds, events) && i < j < |events|
    requires Issues(worlds[i], events[i])
    ensures worlds[i].node.nextEpoch < worlds[j].node.nextEpoch
  {
    hide Next, Run;
    RunShape(verify, worlds, events);
    StepEpoch(verify, worlds[i], events[i]);
    EpochsGrow(verify, worlds, events, i + 1, j);
  }

  // ---- waiting callers ----

  /** The event gives the caller of request `id` its answer or its failure. */
  ghost predicate Settles(w: World, e: Event, id: RequestId) {
    || (e.Respond? && e.id == id && AwaitedBy(w.node, id))
    || (e.Fail? && e.id == id && id in w.node.waiting)
  }

  lemma StepWaiting(verify: Verifier, w: World, e: Event)
    ensures var w' := Next(verify, w, e);
      w'.node.waiting <= w.node.waiting + {w.nextId} && w.nextId <= w'.nextId
    ensures e.SendRequest? || Next(verify, w, e).node.waiting <= w.node.waiting
    ensures e.SendRequest? ==> Next(verify, w, e).nextId == w.nextId + 1
  {
    hide CreditEach, Countable, Inserted, SymbolRange, Flatten;
  }

  lemma SettledIsGone(verify: Verifier, w: World, e: Event, id: RequestId)
    requires Settles(w, e, id) && Enabled(w, e)
    ensures id !in Next(verify, w, e).node.waiting
  {
    hide CreditEach, Countable, Inserted, SymbolRange, Flatten;
  }

  lemma {:induction false} GoneForGood(verify: Verifier, worlds: seq<World>, events: seq<Event>, id: RequestId, i: nat,
                      j: nat)
    requires Run(verify, worlds, events) && i <= j < |worlds|
    requires id !in worlds[i].node.waiting && id < worlds[i].nextId
    ensures id !in worlds[j].node.waiting && id < worlds[j].nextId
    decreases j
  {
    hide Next, Run;
    RunShape(verify, worlds, events);
    if i < j {
      GoneForGood(verify, worlds, events, id, i, j - 1);
      StepWaiting(verify, worlds[j - 1], events[j - 1]);
    }
  }

  /** In every run a caller hears at most once about its request: one answer or one failure. */
  lemma CallerHearsOnce(verify: Verifier, worlds: seq<World>, events: seq<Event>, id: RequestId, i: nat, j: nat)
    requires Run(verify, worlds, events) && i < j < |events| && Settles(worlds[i], events[i], id)
    ensures !Settles(worlds[j], events[j], id)
  {
    hide Next;
    RunInv(verify, worlds, events, i);
    SettledIsGone(verify, worlds[i], events[i], id);
    StepWaiting(verify, worlds[i], events[i]);
    GoneForGood(verify, worlds, events, id, i + 1, j);
  }
}
