/** How a multi-provider download fails, and what it has done by then. */
module MultiFetchFailures {
  import opened Basics
  import opened Manifests
  import opened IndexLog
  import opened StoreSpec
  import opened StoreInvariant
  import opened Transfer
  import opened EventLoops
  import opened Requests
  import opened MultiFetch
  import opened MultiFetchTheorems
  import opened MultiFetchExport

  /** What a reply that brought no chunk is reported as. */
  ghost predicate Dictates(reply: Reply, hash: Digest, e: NetError) {
    match reply
    case Err(cause) => e == cause
    case Ok(ChunkReply(None)) => e == MissingChunk(hash)
    case Ok(ChunkReply(Some(_))) => e == NetError.BadChunk
    case Ok(_) => e == NetError.RequestFailed
  }

  /** A chunk nobody delivered is reported as what the reply of the last provider asked dictates. */
  lemma RefusalDictated(job: Job, slot: nat)
    requires Sane(job) && slot < |job.missing| && !Answered(job, slot)
    ensures Deliver(job, slot).Err?
    ensures var n := |job.providers|;
      Dictates(job.replies.chunk(slot, (slot + n - 1) % n), job.m.chunks[job.missing[slot]].hash,
        Deliver(job, slot).error)
  {
    hide Deliver, Answered;
    DeliverMeaning(job, slot);
    var n := |job.providers|;
    assert Turn(n, slot, n - 1) == (slot + n - 1) % n;
  }

  // ---- puts that fail ----

  /** Put `k` is the first to fail, and this is what is left. */
  ghost predicate FailsAt(h: HashFn, d: Disk, s: Handle, pieces: seq<Bytes>, k: nat, out: StoredOut) {
    && k < |pieces| && PutAll(h, d, s, pieces[..k]).result.Ok?
    && var o := PutAll(h, d, s, pieces[..k]);
       var p := PutStep(h, o.disk, o.handle, pieces[k]);
       p.result.Err? && out.disk == p.disk && out.handle == p.handle && out.result == Err(p.result.error)
  }

  lemma {:induction false} FirstFailingPut(h: HashFn, d: Disk, s: Handle, pieces: seq<Bytes>)
    requires PutAll(h, d, s, pieces).result.Err?
    ensures FailsAt(h, d, s, pieces, PutCount(h, d, s, pieces), PutAll(h, d, s, pieces))
  {
    hide PutStep;
    var before := pieces[..|pieces| - 1];
    if PutAll(h, d, s, before).result.Err? {
      FirstFailingPut(h, d, s, before);
      var k := PutCount(h, d, s, before);
      assert before[..k] == pieces[..k];
    } else {
      CountAll(h, d, s, before);
    }
  }

  // ---- what was stored and reported all the same ----

  lemma {:induction false} AcceptedHas(os: Outcomes, t: nat)
    requires t < |os| && os[t].Ok?
    ensures os[t].value.bytes in Accepted(os)
  {
    var n := |os| - 1;
    if t < n {
      AcceptedHas(os[..n], t);
    } else {
      var before := Accepted(os[..n]);
      assert (before + [os[n].value.bytes])[|before|] == os[n].value.bytes;
    }
  }

  /** One for a slot whose chunk was delivered. */
  ghost function Delivered(job: Job): nat -> nat
    requires Sane(job)
  {
    (slot: nat) => if slot < |job.missing| && Deliver(job, slot).Ok? then 1 else 0
  }

  lemma {:induction false} AcceptedCount(job: Job, order: seq<nat>)
    requires Sane(job) && InRange(order, |job.missing|)
    ensures |Accepted(OutcomesOf(job, order))| == Total(Delivered(job), order)
  {
    hide Deliver;
    if order != [] {
      var n := |order| - 1;
      AcceptedCount(job, order[..n]);
      assert OutcomesOf(job, order)[..n] == OutcomesOf(job, order[..n]);
    }
  }

  lemma DrainedShape(h: HashFn, parse: Parser, root: Digest, providers: seq<Peer>, replies: Replies, schedule: Schedule,
                     d: Disk, s: Handle, m: Manifest)
    requires Schedules(schedule) && providers != [] && PickManifest(h, parse, root, replies, |providers|) == Ok(m)
    ensures var job := JobFor(h, m, providers, replies, d, s);
      && InRange(schedule(|job.missing|), |job.missing|)
      && DownloadMulti(h, parse, root, providers, replies, schedule, d, s)
           == Drained(job, OutcomesOf(job, schedule(|job.missing|)), d, Scan(d, s, m, |m.chunks|).1)
      && Arrivals(h, m, providers, replies, schedule, d, s) == Accepted(OutcomesOf(job, schedule(|job.missing|)))
  {
    hide PickManifest, Scan, Drained, OutcomesOf, Accepted;
    var job := JobFor(h, m, providers, replies, d, s);
    assert Completes(schedule(|job.missing|), |job.missing|);
    CompletesInRange(schedule(|job.missing|), |job.missing|);
  }

  /** The state, error, reports and receipts of a download one of whose puts failed: those of the
      first failing put, in completion order, with the puts before it reported and nothing paid. */
  ghost predicate StoppedAt(job: Job, d: Disk, s: Handle, arrivals: seq<Bytes>, k: nat, out: Fetched)
    requires |job.missing| <= |job.m.chunks|
  {
    && k < |arrivals| && PutAll(job.h, d, s, arrivals[..k]).result.Ok?
    && var o := PutAll(job.h, d, s, arrivals[..k]);
       var p := PutStep(job.h, o.disk, o.handle, arrivals[k]);
       && p.result.Err? && out.disk == p.disk && out.handle == p.handle
       && out.result == Err(StoreFailed(p.result.error)) && out.receipts == map[]
       && |out.progress| == k + 1
       && forall i :: 0 <= i <= k ==> out.progress[i] == (|job.m.chunks| - |job.missing| + i, |job.m.chunks|)
  }

  ghost predicate AllAnswered(job: Job) {
    forall slot: nat :: slot < |job.missing| ==> Answered(job, slot)
  }

  /** Slot `order[t]` is the first in completion order that nobody delivers, and `e` is what the
      reply of the last provider in its rotation dictates. */
  ghost predicate FirstUnanswered(job: Job, order: seq<nat>, t: nat, e: NetError)
    requires Sane(job) && InRange(order, |job.missing|)
  {
    && t < |order| && !Answered(job, order[t])
    && (forall u :: 0 <= u < t ==> Answered(job, order[u]))
    && var n := |job.providers|;
       Dictates(job.replies.chunk(order[t], (order[t] + n - 1) % n), job.m.chunks[job.missing[order[t]]].hash, e)
  }

  lemma FirstFailureDictated(job: Job, order: seq<nat>)
    requires Sane(job) && InRange(order, |job.missing|) && FirstFailure(OutcomesOf(job, order)).Some?
    ensures exists t: nat :: FirstUnanswered(job, order, t, FirstFailure(OutcomesOf(job, order)).value)
  {
    hide Answered, Deliver, OutcomesOf, FirstFailure, Dictates;
    var os := OutcomesOf(job, order);
    var e := FirstFailure(os).value;
    FailureMeaning(os);
    var t: nat :| t < |os| && os[t] == Err(e) && forall u: nat :: u < t ==> os[u].Ok?;
    forall u | 0 <= u <= t
      ensures os[u].Ok? <==> Answered(job, order[u])
    {
      OutcomeAt(job, order, u);
      DeliverMeaning(job, order[u]);
    }
    OutcomeAt(job, order, t);
    RefusalDictated(job, order[t]);
    assert FirstUnanswered(job, order, t, e);
  }

  /** Nobody is sent a receipt for nothing. */
  lemma OnlyPositive(tally: map<Peer, nat>)
    ensures forall p :: p in Payable(tally) ==> Payable(tally)[p] > 0
  {
  }

  /** Every way a download with a manifest can end. It fails exactly when a put fails or a missing
      chunk is answered by nobody. A failing put ends it on the spot, with its error and no receipts.
      Otherwise the error is that of the first unanswered chunk in completion order, every delivered
      chunk has been stored and reported all the same, and the receipts are exact. */
  lemma DownloadEnds(h: HashFn, parse: Parser, root: Digest, providers: seq<Peer>, replies: Replies, schedule: Schedule,
                     d: Disk, s: Handle, m: Manifest)
    requires Schedules(schedule) && providers != [] && PickManifest(h, parse, root, replies, |providers|) == Ok(m)
    ensures var out := DownloadMulti(h, parse, root, providers, replies, schedule, d, s);
      var job, s1 := JobFor(h, m, providers, replies, d, s), Scan(d, s, m, |m.chunks|).1;
      var order, arrivals := schedule(|job.missing|), Arrivals(h, m, providers, replies, schedule, d, s);
      && InRange(order, |job.missing|)
      && (out.result.Err? <==> PutFailed(job, schedule, d, s) || !AllAnswered(job))
      && (out.result.Ok? ==> out.result == Ok(m))
      && (PutFailed(job, schedule, d, s) ==> exists k: nat :: StoppedAt(job, d, s1, arrivals, k, out))
      && (!PutFailed(job, schedule, d, s) && !AllAnswered(job) ==>
            exists t: nat :: FirstUnanswered(job, order, t, out.result.error))
      && (!PutFailed(job, schedule, d, s) ==> |out.progress| == 1 + Total(Delivered(job), Slots(|job.missing|)))
      && (!PutFailed(job, schedule, d, s) ==>
            forall p :: Lookup(out.receipts, p) == Total(CountFor(job, p), Slots(|job.missing|)))
      && (forall p :: p in out.receipts ==> out.receipts[p] > 0)
  {
    hide PickManifest, Scan, OutcomesOf, Accepted, Answered, Deliver, FirstFailure, PutAll, Total, Tally, Payable,
      PutStep,
      Delivered, CountFor, Dictates, DownloadMulti, Arrivals;
    var job, s1 := JobFor(h, m, providers, replies, d, s), Scan(d, s, m, |m.chunks|).1;
    var order := schedule(|job.missing|);
    assert Completes(order, |job.missing|);
    DrainedShape(h, parse, root, providers, replies, schedule, d, s, m);
    var os := OutcomesOf(job, order);
    OnlyPositive(Tally(os));
    AllDelivered(job, order);
    AcceptedCount(job, order);
    TotalOfPermutation(Delivered(job), order, Slots(|job.missing|));
    if PutFailed(job, schedule, d, s) {
      FirstFailingPut(h, d, s1, Accepted(os));
      assert StoppedAt(job, d, s1, Accepted(os), PutCount(h, d, s1, Accepted(os)),
        DownloadMulti(h, parse, root, providers, replies, schedule, d, s));
    } else {
      CountAll(h, d, s1, Accepted(os));
      if FirstFailure(os).Some? {
        FirstFailureDictated(job, order);
      }
      forall p
        ensures Lookup(Payable(Tally(os)), p) == Total(CountFor(job, p), Slots(|job.missing|))
      {
        ReceiptsAreExact(job, order, p);
      }
    }
  }

  /** Unless a put fails, every chunk somebody delivered is in the store, whatever became of others. */
  lemma DeliveredIsStored(h: HashFn, parse: Parser, root: Digest, providers: seq<Peer>, replies: Replies,
                      schedule: Schedule,
                          d: Disk, s: Handle, log: seq<IndexEntry>, m: Manifest) returns (log': seq<IndexEntry>)
    requires Schedules(schedule) && providers != [] && PickManifest(h, parse, root, replies, |providers|) == Ok(m)
    requires DiskInv(h, d, log, []) && HandleInv(d, s, log)
    ensures var out, job := DownloadMulti(h, parse, root, providers, replies, schedule, d, s),
      JobFor(h, m, providers, replies, d, s);
      && DiskInv(h, out.disk, log', []) && HandleInv(out.disk, out.handle, log')
      && (!PutFailed(job, schedule, d, s) ==>
            forall slot: nat :: slot < |job.missing| && Answered(job, slot) ==>
              Stored(out.disk, out.handle, log', m.chunks[job.missing[slot]].hash))
  {
    hide PickManifest, Scan, OutcomesOf, Accepted, Answered, Deliver, FirstFailure, PutAll, Stored, DiskInv, HandleInv,
      Tally,
      Payable, DownloadMulti, Arrivals;
    var job, s1 := JobFor(h, m, providers, replies, d, s), Scan(d, s, m, |m.chunks|).1;
    var order := schedule(|job.missing|);
    assert Completes(order, |job.missing|);
    DrainedShape(h, parse, root, providers, replies, schedule, d, s, m);
    ScanMeaning(h, d, s, log, m, |m.chunks|);
    var os := OutcomesOf(job, order);
    log' := PutAllKeeps(h, d, s1, Accepted(os), log);
    var out := DownloadMulti(h, parse, root, providers, replies, schedule, d, s);
    if !PutFailed(job, schedule, d, s) {
      forall slot: nat | slot < |job.missing| && Answered(job, slot)
        ensures Stored(out.disk, out.handle, log', m.chunks[job.missing[slot]].hash)
      {
        SlotCompletes(order, |job.missing|, slot);
        var t :| 0 <= t < |order| && order[t] == slot;
        OutcomeAt(job, order, t);
        DeliverMeaning(job, slot);
        AcceptedHas(os, t);
        var i :| 0 <= i < |Accepted(os)| && Accepted(os)[i] == os[t].value.bytes;
        assert Stored(out.disk, out.handle, log', h(Accepted(os)[i]));
      }
    }
  }

  /** Without a manifest nothing is touched, and the reason is that of the last provider asked. */
  lemma NoManifestNoEffect(h: HashFn, parse: Parser, root: Digest, providers: seq<Peer>, replies: Replies,
                      schedule: Schedule,
                           d: Disk, s: Handle)
    requires Schedules(schedule) && PickManifest(h, parse, root, replies, |providers|).Err?
    ensures var e := if providers == [] then NoProviders else Offer(h, parse, root, replies, |providers| - 1).error;
      DownloadMulti(h, parse, root, providers, replies, schedule, d, s) == Fetched(d, s, Err(e), [], map[])
  {
    hide PickManifest, Offer;
    PickError(h, parse, root, replies, |providers|);
  }
}
