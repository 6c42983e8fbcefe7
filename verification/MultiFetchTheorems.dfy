/** What the multi-provider download guarantees, for any replies and any completion order. */
module MultiFetchTheorems {
  import opened Basics
  import opened Manifests
  import opened IndexLog
  import opened StoreSpec
  import opened StoreInvariant
  import opened StoreSteps
  import opened Transfer
  import opened EventLoops
  import opened Requests
  import opened MultiFetch

  // ---- the manifest ----

  function Offer(h: HashFn, parse: Parser, root: Digest, replies: Replies, j: nat): Result<Manifest, NetError> {
    GetManifest(h, parse, root, replies.manifest(j))
  }

  ghost predicate FirstOffer(h: HashFn, parse: Parser, root: Digest, replies: Replies, n: nat, j: nat) {
    && j < n && Offer(h, parse, root, replies, j).Ok?
    && forall i: nat :: i < j ==> Offer(h, parse, root, replies, i).Err?
  }

  lemma PickNext(h: HashFn, parse: Parser, root: Digest, replies: Replies, n: nat)
    requires n > 0
    ensures var earlier := PickManifest(h, parse, root, replies, n - 1);
      PickManifest(h, parse, root, replies, n) == if earlier.Ok? then earlier else Offer(h, parse, root, replies, n - 1)
  {
    hide GetManifest;
  }

  /** The first provider with an acceptable manifest decides. */
  lemma {:induction false} PickMeaning(h: HashFn, parse: Parser, root: Digest, replies: Replies, n: nat)
    ensures PickManifest(h, parse, root, replies, n).Ok? <==> exists j: nat :: FirstOffer(h, parse, root, replies, n, j)
    ensures forall j: nat :: FirstOffer(h, parse, root, replies, n, j) ==>
      PickManifest(h, parse, root, replies, n) == Offer(h, parse, root, replies, j)
    ensures PickManifest(h, parse, root, replies, n).Err? ==> forall j: nat :: j < n ==>
      Offer(h, parse, root, replies, j).Err?
  {
    hide Offer, PickManifest;
    if n == 0 {
      NobodyPicked(h, parse, root, replies);
    } else {
      PickMeaning(h, parse, root, replies, n - 1);
      PickNext(h, parse, root, replies, n);
      var before := n - 1;
      if j: nat :| FirstOffer(h, parse, root, replies, before, j) {
        assert FirstOffer(h, parse, root, replies, n, j);
        assert forall i: nat :: FirstOffer(h, parse, root, replies, n, i) ==> i == j;
      } else {
        assert Offer(h, parse, root, replies, n - 1).Ok? ==> FirstOffer(h, parse, root, replies, n, n - 1);
        assert forall i: nat :: FirstOffer(h, parse, root, replies, n, i) ==> i == n - 1;
      }
    }
  }

  /** Without one, the last provider's error stands. */
  lemma PickError(h: HashFn, parse: Parser, root: Digest, replies: Replies, n: nat)
    requires PickManifest(h, parse, root, replies, n).Err?
    ensures PickManifest(h, parse, root, replies, n) == if n == 0 then Err(NoProviders)
      else Offer(h, parse, root, replies, n - 1)
  {
    hide GetManifest;
  }

  // ---- the rotation ----

  lemma Remainder(x: nat, n: nat, q: nat, r: nat)
    requires r < n && x == q * n + r
    ensures x / n == q && x % n == r
  {
    DivUnique(x, n, q);
  }

  lemma TurnOf(n: nat, slot: nat, k: nat)
    requires n > 0 && k < n
    ensures var at := slot % n; Turn(n, slot, k) == if at + k < n then at + k else at + k - n
  {
    var q, at := slot / n, slot % n;
    assert slot == q * n + at;
    if at + k < n {
      Remainder(slot + k, n, q, at + k);
    } else {
      MulSucc(q, n);
      Remainder(slot + k, n, q + 1, at + k - n);
    }
  }

  /** `(slot + k) % n` visits every provider, and none twice. */
  lemma RotationVisits(n: nat, slot: nat, j: nat) returns (k: nat)
    requires j < n
    ensures k < n && Turn(n, slot, k) == j
    ensures forall k': nat :: k' < n && Turn(n, slot, k') == j ==> k' == k
  {
    hide Turn;
    var at := slot % n;
    k := if at <= j then j - at else n + j - at;
    TurnOf(n, slot, k);
    forall k': nat | k' < n && Turn(n, slot, k') == j
      ensures k' == k
    {
      TurnOf(n, slot, k');
    }
  }

  /** From turn `k` on, a slot is delivered by the first provider whose turn it is and who answers. */
  lemma {:induction false} TryMeaning(job: Job, slot: nat, k: nat, lastError: NetError)
    requires Sane(job) && slot < |job.missing| && k <= |job.providers|
    ensures var r := TryFrom(job, slot, k, lastError);
      && (r.Ok? <==> exists t: nat :: k <= t < |job.providers| && Answers(job, slot, Turn(|job.providers|, slot, t)))
      && (r.Ok? ==> exists t: nat :: FirstToAnswer(job, slot, k, t, r.value))
      && (r.Err? ==> r.error == if k == |job.providers| then lastError
        else Refusal(job, slot, Turn(|job.providers|, slot, |job.providers| - 1)))
    decreases |job.providers| - k
  {
    hide Answers, Turn, Refusal;
    if k < |job.providers| && !Answers(job, slot, Turn(|job.providers|, slot, k)) {
      TryMeaning(job, slot, k + 1, Refusal(job, slot, Turn(|job.providers|, slot, k)));
      var r := TryFrom(job, slot, k, lastError);
      if r.Ok? {
        var t: nat :| FirstToAnswer(job, slot, k + 1, t, r.value);
        assert FirstToAnswer(job, slot, k, t, r.value);
      }
    } else if k < |job.providers| {
      assert FirstToAnswer(job, slot, k, k, TryFrom(job, slot, k, lastError).value);
    }
  }

  ghost predicate FirstToAnswer(job: Job, slot: nat, k: nat, t: nat, dv: Delivery)
    requires Sane(job) && slot < |job.missing|
  {
    var j := Turn(|job.providers|, slot, t);
    && k <= t < |job.providers| && Answers(job, slot, j)
    && (forall u: nat :: k <= u < t ==> !Answers(job, slot, Turn(|job.providers|, slot, u)))
    && dv == Delivery(job.missing[slot], GetChunk(job.replies.chunk(slot, j)).value.value, job.providers[j])
  }

  ghost predicate Answered(job: Job, slot: nat)
    requires slot < |job.missing|
  {
    exists j: nat :: j < |job.providers| && Answers(job, slot, j)
  }

  /** A chunk is delivered exactly when some listed provider answers correctly, wherever the
      rotation starts; what is delivered has the right hash and comes from the peer named. */
  lemma DeliverMeaning(job: Job, slot: nat)
    requires Sane(job) && slot < |job.missing|
    ensures Deliver(job, slot).Ok? <==> Answered(job, slot)
    ensures Deliver(job, slot).Err? ==>
      Deliver(job, slot).error == Refusal(job, slot, Turn(|job.providers|, slot, |job.providers| - 1))
    ensures Deliver(job, slot).Ok? ==>
      var dv := Deliver(job, slot).value;
      && dv.index == job.missing[slot] && ChunkHashOk(job.h, job.m, dv.index, dv.bytes)
      && exists j: nat ::
           && j < |job.providers| && job.providers[j] == dv.from
           && job.replies.chunk(slot, j) == Ok(ChunkReply(Some(dv.bytes)))
  {
    hide TryFrom;
    TryMeaning(job, slot, 0, MissingChunk(job.m.chunks[job.missing[slot]].hash));
    if Answered(job, slot) {
      var j: nat :| j < |job.providers| && Answers(job, slot, j);
      var k := RotationVisits(|job.providers|, slot, j);
      assert Turn(|job.providers|, slot, k) == j;
    }
    if Deliver(job, slot).Ok? {
      var t: nat :| FirstToAnswer(job, slot, 0, t, Deliver(job, slot).value);
      var j := Turn(|job.providers|, slot, t);
      assert Answers(job, slot, j);
      assert job.replies.chunk(slot, j) == Ok(ChunkReply(Some(Deliver(job, slot).value.bytes)));
    }
  }

  // ---- sums over slots do not depend on the order ----

  function Total(f: nat -> nat, slots: seq<nat>): nat {
    if slots == [] then 0 else Total(f, slots[..|slots| - 1]) + f(slots[|slots| - 1])
  }

  lemma {:induction false} TotalWithout(f: nat -> nat, slots: seq<nat>, i: nat)
    requires i < |slots|
    ensures Total(f, slots) == Total(f, slots[..i] + slots[i + 1..]) + f(slots[i])
  {
    var n := |slots| - 1;
    var rest := slots[..i] + slots[i + 1..];
    if i == n {
      assert rest == slots[..n];
    } else {
      TotalWithout(f, slots[..n], i);
      assert rest[..n - 1] == slots[..n][..i] + slots[..n][i + 1..];
      assert rest[n - 1] == slots[n];
    }
  }

  lemma {:induction false} TotalOfPermutation(f: nat -> nat, a: seq<nat>, b: seq<nat>)
    requires multiset(a) == multiset(b)
    ensures Total(f, a) == Total(f, b)
  {
    if a == [] {
      assert |multiset(a)| == |multiset(b)|;
    } else {
      var n := |a| - 1;
      var x := a[n];
      assert x in multiset(a);
      var i :| 0 <= i < |b| && b[i] == x;
      var rest := b[..i] + b[i + 1..];
      assert a == a[..n] + [x];
      assert b == b[..i] + [x] + b[i + 1..];
      assert multiset(a[..n]) == multiset(a) - multiset{x};
      assert multiset(rest) == multiset(b) - multiset{x};
      TotalOfPermutation(f, a[..n], rest);
      TotalWithout(f, b, i);
    }
  }

  // ---- receipts ----

  /** The bytes accepted from peer `p` in a slot. */
  function AcceptedFrom(job: Job, p: Peer, slot: nat): nat
    requires Sane(job)
  {
    if slot < |job.missing| && Deliver(job, slot).Ok? && Deliver(job, slot).value.from == p
      then |Deliver(job, slot).value.bytes| else 0
  }

  ghost function CountFor(job: Job, p: Peer): nat -> nat
    requires Sane(job)
  {
    (slot: nat) => AcceptedFrom(job, p, slot)
  }

  function Lookup(tally: map<Peer, nat>, p: Peer): nat { if p in tally then tally[p] else 0 }

  lemma {:induction false} TallyIsTotal(job: Job, order: seq<nat>, p: Peer)
    requires Sane(job) && InRange(order, |job.missing|)
    ensures Lookup(Tally(OutcomesOf(job, order)), p) == Total(CountFor(job, p), order)
  {
    hide Deliver;
    if order != [] {
      var n := |order| - 1;
      TallyIsTotal(job, order[..n], p);
      var os := OutcomesOf(job, order);
      assert os[..n] == OutcomesOf(job, order[..n]);
    }
  }

  /** Each provider's receipt is for exactly the bytes accepted from it, summed over the slots. */
  lemma ReceiptsAreExact(job: Job, order: seq<nat>, p: Peer)
    requires Sane(job) && Completes(order, |job.missing|)
    ensures InRange(order, |job.missing|)
    ensures Lookup(Payable(Tally(OutcomesOf(job, order))), p) == Total(CountFor(job, p), Slots(|job.missing|))
  {
    hide Total, Tally, OutcomesOf, CountFor;
    CompletesInRange(order, |job.missing|);
    TallyIsTotal(job, order, p);
    TotalOfPermutation(CountFor(job, p), order, Slots(|job.missing|));
  }

  // ---- failures and acceptances ----

  lemma {:induction false} FailureMeaning(os: Outcomes)
    ensures FirstFailure(os).None? <==> forall t :: 0 <= t < |os| ==> os[t].Ok?
    ensures FirstFailure(os).None? ==> |Accepted(os)| == |os| && forall t :: 0 <= t < |os| ==>
      Accepted(os)[t] == os[t].value.bytes
    ensures FirstFailure(os).Some? ==>
      exists t: nat :: t < |os| && os[t] == Err(FirstFailure(os).value) && forall u: nat :: u < t ==> os[u].Ok?
  {
    if os != [] {
      var n := |os| - 1;
      var before := os[..n];
      FailureMeaning(before);
      if FirstFailure(before).Some? {
        var e := FirstFailure(before).value;
        var t: nat :| t < |before| && before[t] == Err(e) && forall u: nat :: u < t ==> before[u].Ok?;
        assert os[t] == before[t];
        assert forall u: nat :: u < t ==> os[u] == before[u];
      } else {
        assert forall t :: 0 <= t < n ==> os[t] == before[t];
      }
    }
  }

  /** Every slot is delivered exactly when no outcome is a failure. */
  lemma AllDelivered(job: Job, order: seq<nat>)
    requires Sane(job) && Completes(order, |job.missing|)
    ensures InRange(order, |job.missing|)
    ensures FirstFailure(OutcomesOf(job, order)).None? <==>
      forall slot: nat :: slot < |job.missing| ==> Answered(job, slot)
  {
    hide Answered, Deliver, OutcomesOf, FirstFailure;
    CompletesInRange(order, |job.missing|);
    var os := OutcomesOf(job, order);
    FailureMeaning(os);
    forall t | 0 <= t < |order|
      ensures os[t].Ok? <==> Answered(job, order[t])
    {
      OutcomeAt(job, order, t);
      DeliverMeaning(job, order[t]);
    }
    forall slot: nat | slot < |job.missing| && FirstFailure(os).None?
      ensures Answered(job, slot)
    {
      SlotCompletes(order, |job.missing|, slot);
      var t :| 0 <= t < |order| && order[t] == slot;
      assert os[t].Ok?;
    }
  }

  lemma SlotCompletes(order: seq<nat>, n: nat, slot: nat)
    requires Completes(order, n) && slot < n
    ensures exists t :: 0 <= t < |order| && order[t] == slot
  {
    assert Slots(n)[slot] in multiset(Slots(n));
    assert slot in multiset(order);
  }

  // ---- the scan ----

  lemma {:induction false} ScanMeaning(h: HashFn, d: Disk, s: Handle, log: seq<IndexEntry>, m: Manifest, n: nat)
    requires DiskInv(h, d, log, []) && HandleInv(d, s, log) && n <= |m.chunks|
    ensures var (missing, s') := Scan(d, s, m, n);
      && HandleInv(d, s', log) && s'.refs == s.refs
      && forall i: nat :: i < n ==> (i in missing <==> !Stored(d, s, log, m.chunks[i].hash))
  {
    hide DiskInv, HandleInv, HasStep, LogKeys;
    if n > 0 {
      ScanMeaning(h, d, s, log, m, n - 1);
      var (missing, s') := Scan(d, s, m, n - 1);
      HasKeeps(h, d, s', log, [], m.chunks[n - 1].hash);
      HasKeepsRefs(d, s', m.chunks[n - 1].hash);
    }
  }

  /** Each is listed once, in the order of the manifest. */
  lemma {:induction false} MissingInOrder(d: Disk, s: Handle, m: Manifest, n: nat)
    requires n <= |m.chunks|
    ensures var missing := Scan(d, s, m, n).0; forall i, j :: 0 <= i < j < |missing| ==> missing[i] < missing[j]
  {
    hide HasStep;
    if n > 0 {
      MissingInOrder(d, s, m, n - 1);
      var (missing, s1) := Scan(d, s, m, n - 1);
      var found, all := HasStep(d, s1, m.chunks[n - 1].hash).0, Scan(d, s, m, n).0;
      assert all == if found then missing else missing + [n - 1];
      forall i, j | 0 <= i < j < |all|
        ensures all[i] < all[j]
      {
        assert all[i] == missing[i] == Scan(d, s, m, n - 1).0[i];
        assert j < |missing| ==> all[j] == missing[j];
      }
    }
  }

  // ---- the theorem ----

  /** Every chunk the manifest lists is in the store. */
  ghost predicate Complete(m: Manifest, d: Disk, s: Handle, log: seq<IndexEntry>) {
    forall i: nat :: i < |m.chunks| ==> Stored(d, s, log, m.chunks[i].hash)
  }

  lemma DrainCompletes(job: Job, order: seq<nat>, d: Disk, s: Handle,
                      log: seq<IndexEntry>) returns (log': seq<IndexEntry>)
    requires Sane(job) && Completes(order, |job.missing|)
    requires DiskInv(job.h, d, log, []) && HandleInv(d, s, log)
    requires forall i: nat :: i < |job.m.chunks| ==> i in job.missing || Stored(d, s, log, job.m.chunks[i].hash)
    ensures InRange(order, |job.missing|)
    ensures var o := PutAll(job.h, d, s, Accepted(OutcomesOf(job, order)));
      && DiskInv(job.h, o.disk, log', []) && HandleInv(o.disk, o.handle, log')
      && (o.result.Ok? && FirstFailure(OutcomesOf(job, order)).None? ==> Complete(job.m, o.disk, o.handle, log'))
  {
    hide DiskInv, HandleInv, PutAll, OutcomesOf, Deliver, Accepted, FirstFailure, Stored;
    CompletesInRange(order, |job.missing|);
    var os := OutcomesOf(job, order);
    log' := PutAllKeeps(job.h, d, s, Accepted(os), log);
    FailureMeaning(os);
    var o := PutAll(job.h, d, s, Accepted(os));
    if o.result.Ok? && FirstFailure(os).None? {
      forall i: nat | i < |job.m.chunks|
        ensures Stored(o.disk, o.handle, log', job.m.chunks[i].hash)
      {
        if i in job.missing {
          var slot :| 0 <= slot < |job.missing| && job.missing[slot] == i;
          SlotCompletes(order, |job.missing|, slot);
          var t :| 0 <= t < |order| && order[t] == slot;
          OutcomeAt(job, order, t);
          DeliverMeaning(job, slot);
          assert Stored(o.disk, o.handle, log', job.h(Accepted(os)[t]));
        }
      }
    }
  }

  /** For any replies and any completion order, once a manifest is obtained and unless a store
      write fails: the download succeeds exactly when every missing chunk has a listed provider
      that answers correctly; then progress has ended at the total and every chunk of the manifest
      is stored; and, success or not, each provider gets a receipt for exactly the bytes accepted
      from it. The store stays well formed in any case. */
  lemma MultiFetchOutcome(h: HashFn, parse: Parser, root: Digest, providers: seq<Peer>, replies: Replies,
                      schedule: Schedule,
                          d: Disk, s: Handle, log: seq<IndexEntry>, m: Manifest) returns (log': seq<IndexEntry>)
    requires Schedules(schedule)
    requires DiskInv(h, d, log, []) && HandleInv(d, s, log)
    requires providers != [] && PickManifest(h, parse, root, replies, |providers|) == Ok(m)
    ensures var out, job := DownloadMulti(h, parse, root, providers, replies, schedule, d, s),
      JobFor(h, m, providers, replies, d, s);
      && DiskInv(h, out.disk, log', []) && HandleInv(out.disk, out.handle, log')
      && (forall i: nat :: i < |m.chunks| ==> (i in job.missing <==> !Stored(d, s, log, m.chunks[i].hash)))
      && (!PutFailed(job, schedule, d, s) ==>
            && (out.result == Ok(m) <==> forall slot: nat :: slot < |job.missing| ==> Answered(job, slot))
            && (out.result.Ok? ==> Complete(m, out.disk, out.handle, log'))
            && (out.result.Ok? ==>
                  out.progress == Reports(|m.chunks| - |job.missing|, |job.missing|, |m.chunks|))
            && (out.result.Ok? ==> out.progress[|out.progress| - 1] == (|m.chunks|, |m.chunks|))
            && (forall p :: Lookup(out.receipts, p) == Total(CountFor(job, p), Slots(|job.missing|))))
  {
    hide DiskInv, HandleInv, PutAll, OutcomesOf, Deliver, Accepted, FirstFailure, Stored, Scan, Total, Answered, Tally,
      Payable, PickManifest;
    var s1 := Scan(d, s, m, |m.chunks|).1;
    ScanMeaning(h, d, s, log, m, |m.chunks|);
    var job := JobFor(h, m, providers, replies, d, s);
    var order := schedule(|job.missing|);
    assert Completes(order, |job.missing|);
    ScanKeepsStored(d, s, s1, log);
    log' := DrainCompletes(job, order, d, s1, log);
    AllDelivered(job, order);
    FailureMeaning(OutcomesOf(job, order));
    CompletesInRange(order, |job.missing|);
    if !PutFailed(job, schedule, d, s) {
      CountAll(h, d, s1, Accepted(OutcomesOf(job, order)));
      forall p
        ensures Lookup(Payable(Tally(OutcomesOf(job, order))), p) == Total(CountFor(job, p), Slots(|job.missing|))
      {
        ReceiptsAreExact(job, order, p);
      }
    }
  }

  lemma ScanKeepsStored(d: Disk, s: Handle, s': Handle, log: seq<IndexEntry>)
    requires s.refs == s'.refs
    ensures forall x :: Stored(d, s, log, x) <==> Stored(d, s', log, x)
  {
  }

  /** One of the puts of the drain fails. */
  ghost predicate PutFailed(job: Job, schedule: Schedule, d: Disk, s: Handle)
    requires Sane(job) && Schedules(schedule)
  {
    var order := schedule(|job.missing|);
    CompletesInRange(order, |job.missing|);
    PutAll(job.h, d, Scan(d, s, job.m, |job.m.chunks|).1, Accepted(OutcomesOf(job, order))).result.Err?
  }
}
