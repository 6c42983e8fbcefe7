/** Whole runs of the event loop against an arbitrary network: receipts are credited at most once
    per peer, and the choke policy bounds what a peer can take. */
module EventLoopTheorems {
  import opened Basics
  import opened Ledgers
  import opened Receipts
  import opened EventLoops

  /** The node, the requests the swarm has sent and not yet answered or failed, which of those were
      already under way when the peer's last connection closed, and the next request id. */
  datatype World = World(node: Node, outstanding: map<RequestId, Peer>, stale: set<RequestId>, nextId: nat)

  datatype Event =
    | Identify(p: Peer, key: Option<Key>)
    | Close(p: Peer, left: nat)
    | Respond(id: RequestId, reply: Response)
    | Fail(id: RequestId)
    | Incoming(p: Peer, request: Request, shelf: Shelf)
    | SendRequest(p: Peer)
    | SendReceipt(p: Peer)
    | SetThreshold(t: int)

  function Next(verify: Verifier, w: World, e: Event): World {
    var n := w.node;
    match e
    case Identify(p, key) =>
      if key.None? then w
      else if WantsPull(n, p) then
        World(OnIdentified(n, p, key.value, w.nextId), w.outstanding[w.nextId := p], w.stale, w.nextId + 1)
      else w.(node := OnIdentified(n, p, key.value, w.nextId))
    case Close(p, left) =>
      w.(node := OnClosed(n, p, left),
         stale := if left == 0 then w.stale + set id | id in w.outstanding && w.outstanding[id] == p else w.stale)
    case Respond(id, reply) =>
      if id !in w.outstanding then w
      else w.(node := OnResponse(n, verify, w.outstanding[id], id, reply), outstanding := w.outstanding - {id})
    case Fail(id) =>
      w.(node := OnFailure(n, id), outstanding := w.outstanding - {id})
    case Incoming(p, request, shelf) =>
      w.(node := Serve(n, verify, shelf, p, request).0)
    case SendRequest(p) =>
      World(OnRequestCommand(n, w.nextId), w.outstanding[w.nextId := p], w.stale, w.nextId + 1)
    case SendReceipt(p) =>
      if p in n.repPeers then
        World(OnSubmitCommand(n, p, w.nextId), w.outstanding[w.nextId := p], w.stale, w.nextId + 1)
      else w
    case SetThreshold(t) => w.(node := n.(chokeThreshold := t))
  }

  /** What the network guarantees: answers belong to requests under way, and requests that were
      under way when a peer was lost have been answered or failed before it is identified again. */
  ghost predicate Enabled(w: World, e: Event) {
    match e
    case Identify(p, _) => forall id :: id in w.outstanding && id in w.stale ==> w.outstanding[id] != p
    case Respond(id, _) => id in w.outstanding
    case Fail(id) => id in w.outstanding
    case SetThreshold(t) => I64_MIN <= t <= I64_MAX
    case _ => true
  }

  /** A node just started: any persisted ledger and bag, nothing sent, nobody met. */
  ghost predicate Initial(w: World) {
    && w.outstanding == map[] && w.stale == {}
    && w.node.internal == map[] && w.node.repPeers == map[] && w.node.pulledFrom == {}
    && I64_MIN <= w.node.chokeThreshold <= I64_MAX
  }

  ghost predicate Run(verify: Verifier, worlds: seq<World>, events: seq<Event>) {
    && |worlds| == |events| + 1
    && Initial(worlds[0])
    && forall i :: 0 <= i < |events| ==>
      Enabled(worlds[i], events[i]) && worlds[i + 1] == Next(verify, worlds[i], events[i])
  }

  function Account(w: World, p: Peer): Counters { CountersOf(w.node.ledger, p) }

  // ---- credit ----

  /** The sum an event credits to `p` by receipts. */
  function CreditOf(verify: Verifier, w: World, e: Event, p: Peer): nat {
    if e.Respond? && e.id in w.outstanding && w.outstanding[e.id] == p
       && e.id in w.node.internal && w.node.internal[e.id] == PullReceipts
       && e.reply.ReceiptsReply? && p in w.node.repPeers
    then BytesSum(Countable(verify, w.node.repPeers[p], e.reply.receipts))
    else 0
  }

  /** What the counted receipts are: genuine, about the peer, no (client, epoch) twice, and none
      left out whose (client, epoch) is not already there. */
  lemma {:induction false} CountableMeaning(verify: Verifier, server: Key, rs: seq<Receipt>)
    ensures var c := Countable(verify, server, rs);
      && (forall i :: 0 <= i < |c| ==> c[i] in rs && verify(c[i]) && c[i].server == server)
      && (forall i, j :: 0 <= i < j < |c| ==> (c[i].client, c[i].epoch) != (c[j].client, c[j].epoch))
      && (forall r :: r in rs && verify(r) && r.server == server ==> (r.client, r.epoch) in Stamps(c))
  {
    if rs != [] {
      var n := |rs| - 1;
      var before, c := Countable(verify, server, rs[..n]), Countable(verify, server, rs);
      CountableMeaning(verify, server, rs[..n]);
      assert rs == rs[..n] + [rs[n]];
      StampsSnoc(before, rs[n]);
      forall i, j | 0 <= i < j < |c|
        ensures (c[i].client, c[i].epoch) != (c[j].client, c[j].epoch)
      {
        if j == |before| {
          assert (before[i].client, before[i].epoch) in Stamps(before);
        }
      }
    }
  }

  /** No genuine receipt before the one at `k` has its (client, epoch). */
  ghost predicate NoneBefore(verify: Verifier, server: Key, rs: seq<Receipt>, k: nat)
    requires k < |rs|
  {
    forall j :: 0 <= j < k && verify(rs[j]) && rs[j].server == server ==>
      (rs[j].client, rs[j].epoch) != (rs[k].client, rs[k].epoch)
  }

  ghost predicate FirstGenuine(verify: Verifier, server: Key, rs: seq<Receipt>, r: Receipt) {
    exists k :: 0 <= k < |rs| && rs[k] == r && NoneBefore(verify, server, rs, k)
  }

  /** Of several genuine receipts with one (client, epoch), the first is the one counted. */
  lemma {:induction false} CountsFirst(verify: Verifier, server: Key, rs: seq<Receipt>)
    ensures forall r :: r in Countable(verify, server, rs) ==> FirstGenuine(verify, server, rs, r)
  {
    if rs != [] {
      var n := |rs| - 1;
      CountsFirst(verify, server, rs[..n]);
      hide Stamps, FirstGenuine;
      forall r | r in Countable(verify, server, rs)
        ensures FirstGenuine(verify, server, rs, r)
      {
        if r in Countable(verify, server, rs[..n]) {
          StillFirst(verify, server, rs, n, r);
        } else {
          LastIsFirst(verify, server, rs);
        }
      }
    }
  }

  lemma StillFirst(verify: Verifier, server: Key, rs: seq<Receipt>, n: nat, r: Receipt)
    requires n <= |rs| && FirstGenuine(verify, server, rs[..n], r)
    ensures FirstGenuine(verify, server, rs, r)
  {
    var k :| 0 <= k < n && rs[..n][k] == r && NoneBefore(verify, server, rs[..n], k);
    assert forall j :: 0 <= j < k ==> rs[..n][j] == rs[j];
    assert rs[k] == r && NoneBefore(verify, server, rs, k);
  }

  lemma LastIsFirst(verify: Verifier, server: Key, rs: seq<Receipt>)
    requires rs != []
    requires var n := |rs| - 1;
      (rs[n].client, rs[n].epoch) !in Stamps(Countable(verify, server, rs[..n]))
    ensures FirstGenuine(verify, server, rs, rs[|rs| - 1])
  {
    var n := |rs| - 1;
    CountableMeaning(verify, server, rs[..n]);
    hide Stamps, Countable;
    assert forall j :: 0 <= j < n ==> rs[j] in rs[..n];
    assert NoneBefore(verify, server, rs, n);
  }

  lemma {:induction false} CreditEachSum(ledger: Book<Peer>, p: Peer, rs: seq<Receipt>)
    ensures CountersOf(CreditEach(ledger, p, rs), p) ==
      CountersOf(ledger, p).(credited := Min(CountersOf(ledger, p).credited + BytesSum(rs), U64_MAX))
    ensures forall q :: q != p ==> CountersOf(CreditEach(ledger, p, rs), q) == CountersOf(ledger, q)
  {
    if rs != [] {
      CreditEachSum(ledger, p, rs[..|rs| - 1]);
    }
  }

  /** One event changes the credit of `p` by exactly what it credits, cut off at u64, and never
      lowers any counter. */
  lemma StepAccount(verify: Verifier, w: World, e: Event, p: Peer)
    ensures var c, c' := Account(w, p), Account(Next(verify, w, e), p);
      && c'.credited == Min(c.credited + CreditOf(verify, w, e, p), U64_MAX)
      && c'.servedToUs >= c.servedToUs && c'.weServed >= c.weServed
  {
    hide CreditEach, Countable, BytesSum, Inserted, SymbolRange, Flatten;
    if e.Respond? && e.id in w.outstanding && e.reply.ReceiptsReply? {
      var q := w.outstanding[e.id];
      if q in w.node.repPeers {
        CreditEachSum(w.node.ledger, q, Countable(verify, w.node.repPeers[q], e.reply.receipts));
      }
    }
  }

  /** A receipts pull that is still unanswered. */
  ghost predicate Pull(w: World, id: RequestId, p: Peer) {
    id in w.outstanding && w.outstanding[id] == p && id in w.node.internal && w.node.internal[id] == PullReceipts
  }

  ghost predicate WorldInv(w: World) {
    && (forall id :: id in w.outstanding ==> id < w.nextId)
    && (forall id :: id in w.node.internal ==> id < w.nextId)
    && (forall id :: id in w.stale ==> id < w.nextId)
    && (forall id, p :: Pull(w, id, p) ==> id in w.stale || p in w.node.pulledFrom)
    && (forall id, id', p :: Pull(w, id, p) && Pull(w, id', p) ==> id == id')
    && I64_MIN <= w.node.chokeThreshold <= I64_MAX
  }

  /** Which pulls an event leaves: the ones before it, minus one answered, plus one just sent. */
  lemma PullsAfter(verify: Verifier, w: World, e: Event, id: RequestId, p: Peer)
    requires WorldInv(w) && Pull(Next(verify, w, e), id, p)
    ensures Pull(w, id, p) || (e.Identify? && e.p == p && e.key.Some? && WantsPull(w.node, p) && id == w.nextId)
    ensures e.Respond? ==> e.id != id
  {
    hide CreditEach, Countable, Inserted, Serve;
    if e.Incoming? {
      ServeKeeps(w.node, verify, e.shelf, e.p, e.request);
    }
  }

  lemma ServeKeeps(n: Node, verify: Verifier, shelf: Shelf, p: Peer, request: Request)
    ensures var n' := Serve(n, verify, shelf, p, request).0;
      n' == n.(ledger := n'.ledger, bag := n'.bag)
  {
    hide Inserted, SymbolRange, Flatten;
  }

  lemma StepInv(verify: Verifier, w: World, e: Event)
    requires WorldInv(w) && Enabled(w, e)
    ensures WorldInv(Next(verify, w, e))
  {
    var w' := Next(verify, w, e);
    StepIds(verify, w, e);
    forall id, p | Pull(w', id, p)
      ensures id in w'.stale || p in w'.node.pulledFrom
    {
      PullsAfter(verify, w, e, id, p);
      PullStaysMarked(verify, w, e, id, p);
    }
    forall id, id', p | Pull(w', id, p) && Pull(w', id', p)
      ensures id == id'
    {
      PullsAfter(verify, w, e, id, p);
      PullsAfter(verify, w, e, id', p);
    }
    hide Next;
  }

  lemma PullStaysMarked(verify: Verifier, w: World, e: Event, id: RequestId, p: Peer)
    requires WorldInv(w) && Pull(Next(verify, w, e), id, p)
    ensures var w' := Next(verify, w, e); id in w'.stale || p in w'.node.pulledFrom
  {
    hide CreditEach, Countable, Inserted, Serve;
    PullsAfter(verify, w, e, id, p);
    if e.Incoming? {
      ServeKeeps(w.node, verify, e.shelf, e.p, e.request);
    }
  }

  lemma StepIds(verify: Verifier, w: World, e: Event)
    requires WorldInv(w) && Enabled(w, e)
    ensures var w' := Next(verify, w, e);
      && (forall id :: id in w'.outstanding ==> id < w'.nextId)
      && (forall id :: id in w'.node.internal ==> id < w'.nextId)
      && (forall id :: id in w'.stale ==> id < w'.nextId)
      && I64_MIN <= w'.node.chokeThreshold <= I64_MAX
  {
    hide CreditEach, Countable, Inserted, Serve, Pull;
    if e.Incoming? {
      ServeKeeps(w.node, verify, e.shelf, e.p, e.request);
    }
  }

  /** No pull under way, and an account that rules out another. */
  ghost predicate Settled(w: World, p: Peer) {
    Account(w, p) != NOTHING && forall id :: !Pull(w, id, p)
  }

  lemma SettledStays(verify: Verifier, w: World, e: Event, p: Peer)
    requires WorldInv(w) && Settled(w, p)
    ensures Settled(Next(verify, w, e), p) && CreditOf(verify, w, e, p) == 0
  {
    hide Next;
    StepAccount(verify, w, e, p);
    forall id
      ensures !Pull(Next(verify, w, e), id, p)
    {
      if Pull(Next(verify, w, e), id, p) {
        PullsAfter(verify, w, e, id, p);
      }
    }
    assert e.Respond? ==> !Pull(w, e.id, p);
  }

  lemma CreditSettles(verify: Verifier, w: World, e: Event, p: Peer)
    requires WorldInv(w) && CreditOf(verify, w, e, p) > 0
    ensures Settled(Next(verify, w, e), p)
  {
    hide Next;
    StepAccount(verify, w, e, p);
    assert Pull(w, e.id, p);
    forall id
      ensures !Pull(Next(verify, w, e), id, p)
    {
      if Pull(Next(verify, w, e), id, p) {
        PullsAfter(verify, w, e, id, p);
      }
    }
  }

  lemma {:induction false} RunInv(verify: Verifier, worlds: seq<World>, events: seq<Event>, i: nat)
    requires Run(verify, worlds, events) && i < |worlds|
    ensures WorldInv(worlds[i])
  {
    hide Next;
    if i > 0 {
      RunInv(verify, worlds, events, i - 1);
      StepInv(verify, worlds[i - 1], events[i - 1]);
    }
  }

  lemma {:induction false} SettledForever(verify: Verifier, worlds: seq<World>, events: seq<Event>, p: Peer, i: nat,
                      j: nat)
    requires Run(verify, worlds, events) && i <= j < |worlds| && Settled(worlds[i], p)
    ensures Settled(worlds[j], p)
    ensures Account(worlds[j], p).credited == Account(worlds[i], p).credited
    ensures j < |events| ==> CreditOf(verify, worlds[j], events[j], p) == 0
    decreases j
  {
    hide Next, CreditOf, Settled;
    if i < j {
      SettledForever(verify, worlds, events, p, i, j - 1);
      RunInv(verify, worlds, events, j - 1);
      SettledStays(verify, worlds[j - 1], events[j - 1], p);
      StepAccount(verify, worlds[j - 1], events[j - 1], p);
    }
    if j < |events| {
      RunInv(verify, worlds, events, j);
      SettledStays(verify, worlds[j], events[j], p);
    }
  }

  lemma {:induction false} NoCreditNoChange(verify: Verifier, worlds: seq<World>, events: seq<Event>, p: Peer, n: nat)
    requires Run(verify, worlds, events) && n < |worlds|
    requires forall j :: 0 <= j < n ==> CreditOf(verify, worlds[j], events[j], p) == 0
    ensures Account(worlds[n], p).credited == Account(worlds[0], p).credited
  {
    hide Next, CreditOf;
    if n > 0 {
      NoCreditNoChange(verify, worlds, events, p, n - 1);
      StepAccount(verify, worlds[n - 1], events[n - 1], p);
    }
  }

  /** A credit at step `i` is the only one, and it started from an account of nothing. */
  lemma CreditIsUnique(verify: Verifier, worlds: seq<World>, events: seq<Event>, p: Peer, i: nat, j: nat)
    requires Run(verify, worlds, events) && i < |events| && j < |events| && i != j
    requires CreditOf(verify, worlds[i], events[i], p) > 0
    ensures CreditOf(verify, worlds[j], events[j], p) == 0
    ensures Account(worlds[0], p) == NOTHING
  {
    hide Next, CreditOf;
    if Account(worlds[0], p) != NOTHING {
      assert Settled(worlds[0], p);
      SettledForever(verify, worlds, events, p, 0, i);
    }
    if i < j {
      RunInv(verify, worlds, events, i);
      CreditSettles(verify, worlds[i], events[i], p);
      SettledForever(verify, worlds, events, p, i + 1, j);
    } else if CreditOf(verify, worlds[j], events[j], p) > 0 {
      RunInv(verify, worlds, events, j);
      CreditSettles(verify, worlds[j], events[j], p);
      SettledForever(verify, worlds, events, p, j + 1, i);
    }
  }

  /** Step `i` is the one step of the run that credits `p`. */
  ghost predicate OnlyCredit(verify: Verifier, worlds: seq<World>, events: seq<Event>, p: Peer, i: nat)
    requires |worlds| == |events| + 1
  {
    && i < |events|
    && CreditOf(verify, worlds[i], events[i], p) > 0
    && Account(worlds[0], p) == NOTHING
    && forall j :: 0 <= j < |events| && j != i ==> CreditOf(verify, worlds[j], events[j], p) == 0
  }

  /** Receipts are credited once: in every run, what a peer has been credited by receipts is what it
      started with, or, from an empty account, the sum over the distinct genuine receipts of one
      single reply, cut off at u64. */
  lemma CreditedOnce(verify: Verifier, worlds: seq<World>, events: seq<Event>, p: Peer, n: nat)
    requires Run(verify, worlds, events) && n < |worlds|
    ensures
      || Account(worlds[n], p).credited == Account(worlds[0], p).credited
      || exists i: nat :: OnlyCredit(verify, worlds, events, p, i)
           && Account(worlds[n], p).credited == Min(CreditOf(verify, worlds[i], events[i], p), U64_MAX)
  {
    hide Next, CreditOf, Run;
    RunShape(verify, worlds, events);
    if i: nat :| i < n && CreditOf(verify, worlds[i], events[i], p) > 0 {
      forall j | 0 <= j < |events| && j != i
        ensures CreditOf(verify, worlds[j], events[j], p) == 0
      {
        CreditIsUnique(verify, worlds, events, p, i, j);
      }
      NoCreditNoChange(verify, worlds, events, p, i);
      StepAccount(verify, worlds[i], events[i], p);
      RunInv(verify, worlds, events, i);
      CreditSettles(verify, worlds[i], events[i], p);
      SettledForever(verify, worlds, events, p, i + 1, n);
      StartsEmpty(verify, worlds, events, p, i);
      assert OnlyCredit(verify, worlds, events, p, i);
    } else {
      NoCreditNoChange(verify, worlds, events, p, n);
    }
  }

  lemma StartsEmpty(verify: Verifier, worlds: seq<World>, events: seq<Event>, p: Peer, i: nat)
    requires Run(verify, worlds, events) && i < |events|
    requires CreditOf(verify, worlds[i], events[i], p) > 0
    ensures Account(worlds[0], p) == NOTHING
  {
    hide Next, CreditOf;
    if Account(worlds[0], p) != NOTHING {
      assert Settled(worlds[0], p);
      SettledForever(verify, worlds, events, p, 0, i);
    }
  }

  lemma RunShape(verify: Verifier, worlds: seq<World>, events: seq<Event>)
    requires Run(verify, worlds, events)
    ensures |worlds| == |events| + 1
    ensures forall i :: 0 <= i < |events| ==> worlds[i + 1] == Next(verify, worlds[i], events[i])
  {
    hide Next;
  }

  // ---- choke ----

  /** Bytes of chunk data an event sends to `p`. */
  function ChunkSent(verify: Verifier, w: World, e: Event, p: Peer): nat {
    if e.Incoming? && e.p == p && e.request.AskChunk? then
      var reply := Serve(w.node, verify, e.shelf, p, e.request).1;
      if reply.ChunkReply? && reply.chunk.Some? then |reply.chunk.value| else 0
    else 0
  }

  function ChunksSent(verify: Verifier, worlds: seq<World>, events: seq<Event>, p: Peer, n: nat): nat
    requires n <= |events| && n <= |worlds|
  {
    if n == 0 then 0
    else ChunksSent(verify, worlds, events, p, n - 1) + ChunkSent(verify, worlds[n - 1], events[n - 1], p)
  }

  /** A chunk goes out only to a peer whose debt is within the threshold, and is then recorded. */
  lemma ChunkIsCovered(verify: Verifier, w: World, e: Event, p: Peer, t: nat)
    requires I64_MIN <= w.node.chokeThreshold <= t <= I64_MAX
    requires ChunkSent(verify, w, e, p) > 0
    ensures var c, c' := Account(w, p), Account(Next(verify, w, e), p);
      && c.weServed <= c.servedToUs + c.credited + t
      && c' == c.(weServed := SatAdd(c.weServed, ChunkSent(verify, w, e, p)))
  {
    hide Inserted, SymbolRange, Flatten;
  }

  lemma {:induction false} ChokeBoundAt(verify: Verifier, worlds: seq<World>, events: seq<Event>, p: Peer, t: nat,
                      most: nat, n: nat)
    requires Run(verify, worlds, events) && n < |worlds| && t <= I64_MAX
    requires forall i :: 0 <= i < |worlds| ==> worlds[i].node.chokeThreshold <= t
    requires forall i :: 0 <= i < |events| ==> ChunkSent(verify, worlds[i], events[i], p) <= most
    requires Account(worlds[n], p).weServed < U64_MAX
    ensures ChunksSent(verify, worlds, events, p, n) <= Account(worlds[n], p).weServed
    ensures ChunksSent(verify, worlds, events, p, n)
         <= Account(worlds[n], p).servedToUs + Account(worlds[n], p).credited + t + most
  {
    hide Next, ChunkSent, Run;
    RunShape(verify, worlds, events);
    if n > 0 {
      var w, e := worlds[n - 1], events[n - 1];
      StepAccount(verify, w, e, p);
      ChokeBoundAt(verify, worlds, events, p, t, most, n - 1);
      RunInv(verify, worlds, events, n - 1);
      if ChunkSent(verify, w, e, p) > 0 {
        ChunkIsCovered(verify, w, e, p, t);
      }
    }
  }

  /** Choke bound: with the threshold never above `t` and the served counter unsaturated, the chunk
      bytes a peer has been sent never exceed what it gave us, plus its receipt credit, plus `t`,
      plus one largest chunk, however symbol requests, which are recorded but not refused, are
      interleaved. */
  lemma ChokeBound(verify: Verifier, worlds: seq<World>, events: seq<Event>, p: Peer, t: nat, most: nat, n: nat)
    requires Run(verify, worlds, events) && n < |worlds| && t <= I64_MAX
    requires forall i :: 0 <= i < |worlds| ==> worlds[i].node.chokeThreshold <= t
    requires forall i :: 0 <= i < |events| ==> ChunkSent(verify, worlds[i], events[i], p) <= most
    requires Account(worlds[n], p).weServed < U64_MAX
    ensures |worlds| == |events| + 1
    ensures ChunksSent(verify, worlds, events, p, n)
         <= Account(worlds[n], p).servedToUs + Account(worlds[n], p).credited + t + most
  {
    hide Next, ChunkSent, Run, ChunksSent;
    RunShape(verify, worlds, events);
    ChokeBoundAt(verify, worlds, events, p, t, most, n);
  }

  // ---- why the network assumption ----

  /** Were two pulls to one peer ever under way together, one list of receipts would count twice. */
  lemma TwoPullsCreditTwice(verify: Verifier, w: World, p: Peer, id: RequestId, id': RequestId, rs: seq<Receipt>)
    requires Pull(w, id, p) && Pull(w, id', p) && id != id' && p in w.node.repPeers
    ensures var w' := Next(verify, Next(verify, w, Respond(id, ReceiptsReply(rs))), Respond(id', ReceiptsReply(rs)));
      Account(w', p).credited ==
        Min(Account(w, p).credited + 2 * BytesSum(Countable(verify, w.node.repPeers[p], rs)), U64_MAX)
  {
    hide CreditEach, Countable, BytesSum;
    StepAccount(verify, w, Respond(id, ReceiptsReply(rs)), p);
    StepAccount(verify, Next(verify, w, Respond(id, ReceiptsReply(rs))), Respond(id', ReceiptsReply(rs)), p);
  }

  /** And without the network's promise that can happen: a peer met, lost with the pull unanswered,
      and met again. */
  lemma LostPullLeavesTwo(verify: Verifier, w: World, p: Peer, key: Key)
    requires Initial(w) && Account(w, p) == NOTHING
    ensures var w' := Next(verify, Next(verify, Next(verify, w, Identify(p, Some(key))), Close(p, 0)),
      Identify(p, Some(key)));
      Pull(w', w.nextId, p) && Pull(w', w.nextId + 1, p) && p in w'.node.repPeers
  {
    var w1 := Next(verify, w, Identify(p, Some(key)));
    assert Pull(w1, w.nextId, p) && w1.nextId == w.nextId + 1 && Account(w1, p) == NOTHING;
    var w2 := Next(verify, w1, Close(p, 0));
    assert Pull(w2, w.nextId, p) && w2.nextId == w.nextId + 1 && WantsPull(w2.node, p);
  }
}
