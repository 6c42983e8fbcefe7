/** What the event loop tells others: receipts, keys it knows peers by, answers to callers and to
    requests, over whole runs. */
module EventLoopReplies {
  import opened Basics
  import opened Ledgers
  import opened Receipts
  import opened EventLoops
  import opened EventLoopTheorems
  import opened EventLoopAccounts

  // ---- receipts handed out ----

  /** At every state of every run from an empty bag, whoever asks for receipts gets the best of the
      genuine ones submitted, and no other. */
  lemma ReceiptsHandedOut(verify: Verifier, worlds: seq<World>, events: seq<Event>, n: nat, p: Peer, shelf: Shelf)
    requires Run(verify, worlds, events) && n < |worlds| && worlds[0].node.bag == []
    ensures n <= |events|
    ensures var reply := Serve(worlds[n].node, verify, shelf, p, GetReceipts).1;
      && reply.ReceiptsReply?
      && BestKept(reply.receipts, Submissions(verify, worlds[0].node.self, events[..n]))
      && forall r :: r in reply.receipts ==> verify(r) && r.server == worlds[0].node.self != r.client
  {
    hide Run, BestKept;
    BagHoldsBestGenuine(verify, worlds, events, n);
    hide Submissions;
  }

  ghost predicate DistinctStamps(rs: seq<Receipt>) {
    forall i, j :: 0 <= i < j < |rs| ==> (rs[i].client, rs[i].epoch) != (rs[j].client, rs[j].epoch)
  }

  /** The bytes of the receipts whose (client, epoch) an earlier one in the list already carries. */
  function RepeatedBytes(rs: seq<Receipt>): (n: nat)
    ensures n <= BytesSum(rs)
  {
    if rs == [] then 0
    else
      var before, r := rs[..|rs| - 1], rs[|rs| - 1];
      RepeatedBytes(before) + if (r.client, r.epoch) in Stamps(before) then r.bytes else 0
  }

  lemma {:induction false} DistinctRepeatNothing(rs: seq<Receipt>)
    requires DistinctStamps(rs)
    ensures RepeatedBytes(rs) == 0
  {
    if rs != [] {
      DistinctRepeatNothing(rs[..|rs| - 1]);
    }
  }

  /** Of genuine receipts about the peer, exactly the repeated ones do not count. */
  lemma {:induction false} RepeatsLeftOut(verify: Verifier, server: Key, rs: seq<Receipt>)
    requires forall i :: 0 <= i < |rs| ==> verify(rs[i]) && rs[i].server == server
    ensures Stamps(Countable(verify, server, rs)) == Stamps(rs)
    ensures BytesSum(Countable(verify, server, rs)) == BytesSum(rs) - RepeatedBytes(rs)
  {
    hide Stamps, Countable, BytesSum;
    if rs == [] {
      NothingCounts(verify, server);
    } else {
      var n := |rs| - 1;
      RepeatsLeftOut(verify, server, rs[..n]);
      assert rs == rs[..n] + [rs[n]];
      StampsSnoc(rs[..n], rs[n]);
      BytesSumSnoc(rs[..n], rs[n]);
      var before := Countable(verify, server, rs[..n]);
      StampsSnoc(before, rs[n]);
      BytesSumSnoc(before, rs[n]);
      CountableLast(verify, server, rs);
    }
  }

  lemma NothingCounts(verify: Verifier, server: Key)
    ensures Countable(verify, server, []) == [] && BytesSum([]) == 0
  {
  }

  lemma BytesSumSnoc(rs: seq<Receipt>, r: Receipt)
    ensures BytesSum(rs + [r]) == BytesSum(rs) + r.bytes
  {
    assert (rs + [r])[..|rs|] == rs;
  }

  lemma CountableLast(verify: Verifier, server: Key, rs: seq<Receipt>)
    requires rs != [] && verify(rs[|rs| - 1]) && rs[|rs| - 1].server == server
    ensures var before, r := Countable(verify, server, rs[..|rs| - 1]), rs[|rs| - 1];
      Countable(verify, server, rs) == if (r.client, r.epoch) in Stamps(before) then before else before + [r]
  {
    hide Stamps;
  }

  /** A peer without an account that identifies itself is asked for its receipts, and what it answers
      is credited: the sum over the receipts that count, cut off at u64, and nothing else. */
  lemma PulledIsCredited(verify: Verifier, w: World, p: Peer, key: Key, rs: seq<Receipt>)
    requires WorldInv(w) && Account(w, p) == NOTHING && p !in w.node.pulledFrom
    ensures var w1 := Next(verify, w, Identify(p, Some(key)));
      && Pull(w1, w.nextId, p)
      && Account(Next(verify, w1, Respond(w.nextId, ReceiptsReply(rs))), p)
           == Counters(0, 0, Min(BytesSum(Countable(verify, key, rs)), U64_MAX))
  {
    hide CreditEach, Countable, BytesSum;
    var w1 := Next(verify, w, Identify(p, Some(key)));
    var e := Respond(w.nextId, ReceiptsReply(rs));
    assert Pull(w1, w.nextId, p) && w1.node.repPeers[p] == key && Account(w1, p) == NOTHING;
    StepAccount(verify, w1, e, p);
    StepTaken(verify, w1, e, p);
    StepGiven(verify, w1, e, p);
  }

  /** Two nodes. One has run from an empty bag; another that has no account of it meets it, asks, and
      credits exactly the sum of the best genuine receipts submitted to it, less what some client
      repeats under one epoch. So it credits the whole sum if and only if nothing is repeated, or
      the cut-off hides it. */
  lemma TwoNodePull(verify: Verifier, worlds: seq<World>, events: seq<Event>, n: nat, shelf: Shelf, me: Peer, w: World,
                    p: Peer)
    requires Run(verify, worlds, events) && n < |worlds| && worlds[0].node.bag == []
    requires WorldInv(w) && Account(w, p) == NOTHING && p !in w.node.pulledFrom
    ensures var key, reply := worlds[0].node.self, Serve(worlds[n].node, verify, shelf, me, GetReceipts).1;
      var w1 := Next(verify, w, Identify(p, Some(key)));
      var w2 := Next(verify, w1, Respond(w.nextId, reply));
      && reply.ReceiptsReply?
      && var sum, repeated := BytesSum(reply.receipts), RepeatedBytes(reply.receipts);
      && Account(w2, p) == Counters(0, 0, Min(sum - repeated, U64_MAX))
      && (Account(w2, p).credited == Min(sum, U64_MAX) <==> repeated == 0 || sum - repeated >= U64_MAX)
      && (DistinctStamps(reply.receipts) ==> repeated == 0)
  {
    hide Run, BestKept, Next, Serve;
    ReceiptsHandedOut(verify, worlds, events, n, me, shelf);
    hide Submissions;
    var key, reply := worlds[0].node.self, Serve(worlds[n].node, verify, shelf, me, GetReceipts).1;
    PulledIsCredited(verify, w, p, key, reply.receipts);
    RepeatsLeftOut(verify, key, reply.receipts);
    if DistinctStamps(reply.receipts) {
      DistinctRepeatNothing(reply.receipts);
    }
  }

  /** A node to which one client has submitted two receipts under one epoch hands out both. */
  lemma RepeatHandedOut(verify: Verifier, w: World, shelf: Shelf, p: Peer, a: Receipt, b: Receipt)
    requires w.node.bag == [] && verify(a) && verify(b) && a.server == b.server == w.node.self
    requires a.client == b.client != w.node.self && a.epoch == b.epoch && a.bytes > b.bytes > 0
    ensures var w2 := Next(verify, Next(verify, w, Incoming(p, Submit(a), shelf)), Incoming(p, Submit(b), shelf));
      var reply := Serve(w2.node, verify, shelf, p, GetReceipts).1;
      && reply == ReceiptsReply([a, b])
      && BytesSum(reply.receipts) == a.bytes + b.bytes && RepeatedBytes(reply.receipts) == b.bytes
  {
    hide Inserted, BytesSum, RepeatedBytes;
    BagOfTwo(a, b);
    SumOfTwo(a, b);
  }

  lemma BagOfTwo(a: Receipt, b: Receipt)
    requires a.bytes > b.bytes
    ensures Inserted([], a) == [a] && Inserted([a], b) == [a, b]
  {
    hide SortDescending;
    SortFixpoint([a]);
    SortFixpoint([a, b]);
    assert [] + [a] == [a] && [a] + [b] == [a, b] && [a][..1] == [a] && [a, b][..2] == [a, b];
  }

  lemma SumOfTwo(a: Receipt, b: Receipt)
    requires a.client == b.client && a.epoch == b.epoch
    ensures BytesSum([a, b]) == a.bytes + b.bytes && RepeatedBytes([a, b]) == b.bytes
  {
    assert [a, b][..1] == [a] && [a][..0] == [];
    BytesSumSnoc([], a);
    BytesSumSnoc([a], b);
    assert [] + [a] == [a] && [a] + [b] == [a, b];
    assert [a][0] == a && (a.client, a.epoch) in Stamps([a]);
  }

  // ---- keys ----

  /** Says which key a peer has, or that it is gone. */
  ghost predicate Decides(e: Event, p: Peer) {
    (e.Identify? && e.p == p && e.key.Some?) || (e.Close? && e.p == p && e.left == 0)
  }

  /** Event `i` is the last to decide about `p` before `n`. */
  ghost predicate LastDecides(events: seq<Event>, n: nat, p: Peer, i: nat) {
    i < n <= |events| && Decides(events[i], p) && forall j :: i < j < n ==> !Decides(events[j], p)
  }

  lemma StepKeys(verify: Verifier, w: World, e: Event, p: Peer)
    ensures var known, known' := w.node.repPeers, Next(verify, w, e).node.repPeers;
      if !Decides(e, p) then (p in known' <==> p in known) && (p in known ==> known'[p] == known[p])
      else if e.Identify? then p in known' && known'[p] == e.key.value
      else p !in known'
  {
    hide CreditEach, Countable, Inserted, Serve;
    if e.Incoming? {
      ServeKeeps(w.node, verify, e.shelf, e.p, e.request);
    }
  }

  /** In every run a peer is known by a key if and only if the last event to decide was its
      identification with that key, and not the loss of its last connection. */
  lemma {:induction false} KnownKeyIff(verify: Verifier, worlds: seq<World>, events: seq<Event>, n: nat, p: Peer,
                      key: Key)
    requires Run(verify, worlds, events) && n < |worlds|
    ensures (p in worlds[n].node.repPeers && worlds[n].node.repPeers[p] == key) <==>
      exists i: nat :: LastDecides(events, n, p, i) && events[i] == Identify(p, Some(key))
  {
    hide Run, Next;
    RunShape(verify, worlds, events);
    if n == 0 {
      InitialEmpty(verify, worlds, events);
    } else {
      KnownKeyIff(verify, worlds, events, n - 1, p, key);
      var e := events[n - 1];
      StepKeys(verify, worlds[n - 1], e, p);
      if Decides(e, p) {
        assert LastDecides(events, n, p, n - 1);
        assert forall i: nat :: LastDecides(events, n, p, i) ==> i == n - 1;
      } else {
        assert forall i: nat :: LastDecides(events, n, p, i) <==> LastDecides(events, n - 1, p, i);
      }
    }
  }

  lemma InitialEmpty(verify: Verifier, worlds: seq<World>, events: seq<Event>)
    requires Run(verify, worlds, events)
    ensures worlds[0].node.repPeers == map[] && worlds[0].node.pulledFrom == {}
  {
  }

  // ---- pulls ----

  ghost predicate PullsAt(w: World, e: Event, p: Peer) {
    e.Identify? && e.p == p && e.key.Some? && p !in w.node.pulledFrom && Account(w, p) == NOTHING
  }

  ghost predicate PulledSince(worlds: seq<World>, events: seq<Event>, n: nat, p: Peer, i: nat)
    requires |worlds| == |events| + 1
  {
    && i < n <= |events| && PullsAt(worlds[i], events[i], p)
    && forall j :: i < j < n ==> !(events[j].Close? && events[j].p == p && events[j].left == 0)
  }

  lemma StepPulled(verify: Verifier, w: World, e: Event, p: Peer)
    ensures var marked, marked' := w.node.pulledFrom, Next(verify, w, e).node.pulledFrom;
      p in marked' <==> PullsAt(w, e, p) || (p in marked && !(e.Close? && e.p == p && e.left == 0))
    ensures WorldInv(w) && PullsAt(w, e, p) ==> Pull(Next(verify, w, e), w.nextId, p)
  {
    hide CreditEach, Countable, Inserted, Serve;
    if e.Incoming? {
      ServeKeeps(w.node, verify, e.shelf, e.p, e.request);
    }
  }

  /** In every run a peer is marked as asked exactly since the pull that was sent to it, until its last
      connection is lost; and the pull was sent because it had no account when it identified itself. */
  lemma {:induction false} MarkedIff(verify: Verifier, worlds: seq<World>, events: seq<Event>, n: nat, p: Peer)
    requires Run(verify, worlds, events) && n < |worlds|
    ensures |worlds| == |events| + 1
    ensures p in worlds[n].node.pulledFrom <==> exists i: nat :: PulledSince(worlds, events, n, p, i)
  {
    hide Run, Next, PullsAt;
    RunShape(verify, worlds, events);
    if n == 0 {
      InitialEmpty(verify, worlds, events);
    } else {
      MarkedIff(verify, worlds, events, n - 1, p);
      var e := events[n - 1];
      StepPulled(verify, worlds[n - 1], e, p);
      if PullsAt(worlds[n - 1], e, p) {
        assert PulledSince(worlds, events, n, p, n - 1);
      } else if e.Close? && e.p == p && e.left == 0 {
        assert forall i: nat :: !PulledSince(worlds, events, n, p, i);
      } else {
        if i: nat :| PulledSince(worlds, events, n, p, i) {
          assert PulledSince(worlds, events, n - 1, p, i);
        }
        var before := n - 1;
        if i: nat :| PulledSince(worlds, events, before, p, i) {
          assert PulledSince(worlds, events, n, p, i);
        }
      }
    }
  }

  // ---- callers ----

  /** The network has answered or failed request `id`. */
  ghost predicate Finishes(e: Event, id: RequestId) { (e.Respond? || e.Fail?) && e.id == id }

  ghost predicate Awaits(w: World, id: RequestId) {
    id in w.node.waiting && id !in w.node.internal && id < w.nextId
  }

  lemma SentAwaits(verify: Verifier, w: World, p: Peer)
    requires WorldInv(w)
    ensures Awaits(Next(verify, w, SendRequest(p)), w.nextId)
  {
  }

  lemma StepAwaits(verify: Verifier, w: World, e: Event, id: RequestId)
    requires Awaits(w, id) && !Finishes(e, id)
    ensures Awaits(Next(verify, w, e), id)
  {
    hide CreditEach, Countable, Inserted, Serve;
    if e.Incoming? {
      ServeKeeps(w.node, verify, e.shelf, e.p, e.request);
    }
  }

  lemma {:induction false} AwaitsUntil(verify: Verifier, worlds: seq<World>, events: seq<Event>, i: nat, j: nat)
    requires Run(verify, worlds, events) && i < j < |worlds| && events[i].SendRequest?
    requires forall k :: i < k < j ==> !Finishes(events[k], worlds[i].nextId)
    ensures Awaits(worlds[j], worlds[i].nextId)
    decreases j
  {
    hide Run, Next, Awaits, Finishes;
    RunShape(verify, worlds, events);
    if j == i + 1 {
      RunInv(verify, worlds, events, i);
      SentAwaits(verify, worlds[i], events[i].p);
    } else {
      AwaitsUntil(verify, worlds, events, i, j - 1);
      StepAwaits(verify, worlds[j - 1], events[j - 1], worlds[i].nextId);
    }
  }

  /** In every run the first thing the network says about a caller's request reaches the caller, and
      nothing after it does: it hears exactly once. */
  lemma CallerIsAnswered(verify: Verifier, worlds: seq<World>, events: seq<Event>, i: nat, j: nat)
    requires Run(verify, worlds, events) && i < j < |events| && events[i].SendRequest?
    requires Finishes(events[j], worlds[i].nextId)
    ensures Settles(worlds[j], events[j], worlds[i].nextId) <==>
      forall k :: i < k < j ==> !Finishes(events[k], worlds[i].nextId)
  {
    hide Run, Next;
    RunShape(verify, worlds, events);
    var id := worlds[i].nextId;
    if forall k :: i < k < j ==> !Finishes(events[k], id) {
      AwaitsUntil(verify, worlds, events, i, j);
    } else {
      var k := FirstFinish(events, id, i, j);
      AwaitsUntil(verify, worlds, events, i, k);
      CallerHearsOnce(verify, worlds, events, id, k, j);
    }
  }

  lemma {:induction false} FirstFinish(events: seq<Event>, id: RequestId, i: nat, j: nat) returns (k: nat)
    requires i < j < |events| && exists k :: i < k < j && Finishes(events[k], id)
    ensures i < k < j && Finishes(events[k], id) && forall l :: i < l < k ==> !Finishes(events[l], id)
    decreases j - i
  {
    hide Finishes;
    if Finishes(events[i + 1], id) {
      k := i + 1;
    } else {
      k := FirstFinish(events, id, i + 1, j);
    }
  }

  // ---- answers to requests ----

  /** Everything the node replies, from what it has on its shelf and how the asking peer stands. */
  lemma Replies(n: Node, verify: Verifier, shelf: Shelf, p: Peer, request: Request)
    requires I64_MIN <= n.chokeThreshold <= I64_MAX
    ensures var reply, c := Serve(n, verify, shelf, p, request).1, CountersOf(n.ledger, p);
      match request
      case AskManifest(root) =>
        reply == ManifestReply(if root in shelf.manifests then Some(shelf.manifests[root]) else None)
      case AskChunk(x) =>
        reply == ChunkReply(
          if x in shelf.chunks && Net(c) >= SaturatingNeg(n.chokeThreshold) then Some(shelf.chunks[x]) else None)
      case AskSymbol(root, i) =>
        reply == SymbolReply(if root in shelf.symbols && i < |shelf.symbols[root]| then Some(shelf.symbols[root][i])
          else None)
      case AskSymbols(root, start, count) => reply.SymbolsReply? && Batch(shelf, root, start, count, reply.symbols)
      case Submit(_) => reply == ReceiptAck
      case GetReceipts => reply == ReceiptsReply(n.bag)
  {
    hide Inserted, Flatten, SaturatingNeg;
    if request.AskChunk? {
      ChokedIff(n, p);
      hide Choked, Net;
    }
  }

  /** At most 256 symbols, in order, from the one asked for. */
  ghost predicate Batch(shelf: Shelf, root: Digest, start: nat, count: nat, symbols: seq<Bytes>) {
    if root !in shelf.symbols then symbols == []
    else
      var all := shelf.symbols[root];
      && |symbols| == (if start >= |all| then 0 else Min(Min(count, 256), |all| - start))
      && forall i :: 0 <= i < |symbols| ==> symbols[i] == all[start + i]
  }

  // ---- the threshold ----

  ghost predicate LastThreshold(events: seq<Event>, n: nat, i: nat) {
    i < n <= |events| && events[i].SetThreshold? && forall j :: i < j < n ==> !events[j].SetThreshold?
  }

  /** The threshold in force is the last one set, or the initial one. */
  lemma {:induction false} ThresholdInForce(verify: Verifier, worlds: seq<World>, events: seq<Event>, n: nat)
    requires Run(verify, worlds, events) && n < |worlds|
    ensures forall i: nat :: LastThreshold(events, n, i) ==> worlds[n].node.chokeThreshold == events[i].t
    ensures n <= |events| && ((forall i :: 0 <= i < n ==> !events[i].SetThreshold?) ==>
      worlds[n].node.chokeThreshold == worlds[0].node.chokeThreshold)
  {
    hide Run, Next;
    RunShape(verify, worlds, events);
    if n > 0 {
      ThresholdInForce(verify, worlds, events, n - 1);
      StepThreshold(verify, worlds[n - 1], events[n - 1]);
      assert !events[n - 1].SetThreshold? ==>
        forall i: nat :: LastThreshold(events, n, i) ==> LastThreshold(events, n - 1, i);
    }
  }

  lemma StepThreshold(verify: Verifier, w: World, e: Event)
    ensures Next(verify, w, e).node.chokeThreshold == if e.SetThreshold? then e.t else w.node.chokeThreshold
  {
    hide CreditEach, Countable, Inserted, Serve;
    if e.Incoming? {
      ServeKeeps(w.node, verify, e.shelf, e.p, e.request);
    }
  }

  // ---- nothing forgotten, nothing kept ----

  /** The requests under way are exactly those the loop itself or a caller waits for, each once. */
  ghost predicate Accounted(w: World) {
    w.outstanding.Keys == w.node.internal.Keys + w.node.waiting && w.node.internal.Keys !! w.node.waiting
  }

  lemma StepAccounted(verify: Verifier, w: World, e: Event)
    requires WorldInv(w) && Enabled(w, e) && Accounted(w)
    ensures Accounted(Next(verify, w, e))
  {
    hide OnResponse, Serve, Pull;
    if e.Incoming? {
      ServeKeeps(w.node, verify, e.shelf, e.p, e.request);
    }
    if e.Respond? {
      ResponseSettles(w.node, verify, w.outstanding[e.id], e.id, e.reply);
    }
  }

  lemma ResponseSettles(n: Node, verify: Verifier, p: Peer, id: RequestId, reply: Response)
    ensures var n' := OnResponse(n, verify, p, id, reply);
      n'.internal == n.internal - {id} && n'.waiting == if id in n.internal then n.waiting else n.waiting - {id}
  {
    assert id !in n.internal ==> n.internal - {id} == n.internal;
    forall m: Node
      ensures OnReceipts(m, verify, p, reply).internal == m.internal
      ensures OnReceipts(m, verify, p, reply).waiting == m.waiting
    {
      hide CreditEach, Countable;
    }
    hide OnReceipts, Received;
  }

  /** In every run: whatever is waited for is under way, and whatever is under way is waited for. */
  lemma {:induction false} AllAccounted(verify: Verifier, worlds: seq<World>, events: seq<Event>, n: nat)
    requires Run(verify, worlds, events) && n < |worlds| && worlds[0].node.waiting == {}
    ensures Accounted(worlds[n])
  {
    hide Next;
    if n > 0 {
      AllAccounted(verify, worlds, events, n - 1);
      RunInv(verify, worlds, events, n - 1);
      StepAccounted(verify, worlds[n - 1], events[n - 1]);
    }
  }
}
