/** The multi-provider download (crates/np2ptp-net/src/lib.rs): the manifest from the first
    provider that has it, every missing chunk from providers asked in rotation, chunks stored in
    whatever order they complete. */
module MultiFetch {
  import opened Basics
  import opened Manifests
  import opened StoreSpec
  import opened Transfer
  import opened Stores
  import opened StoreTrees
  import opened EventLoops
  import opened Requests

  /** What the providers reply: provider `j` to the manifest request, and to the request for the
      chunk in a slot. The rotation asks each provider at most once a slot. */
  datatype Replies = Replies(manifest: nat -> Reply, chunk: (nat, nat) -> Reply)

  // ---- the manifest ----

  function PickManifest(h: HashFn, parse: Parser, root: Digest, replies: Replies, n: nat): Result<Manifest, NetError> {
    if n == 0 then Err(NoProviders)
    else
      var earlier := PickManifest(h, parse, root, replies, n - 1);
      if earlier.Ok? then earlier else GetManifest(h, parse, root, replies.manifest(n - 1))
  }

  method FirstManifest(h: HashFn, parse: Parser, root: Digest, replies: Replies,
                      n: nat) returns (r: Result<Manifest, NetError>)
    ensures r == PickManifest(h, parse, root, replies, n)
  {
    hide GetManifest;
    var lastError := NoProviders;
    for j := 0 to n
      invariant PickManifest(h, parse, root, replies, j) == Err(lastError)
    {
      var got := GetManifest(h, parse, root, replies.manifest(j));
      if got.Ok? {
        PickStays(h, parse, root, replies, j + 1, n);
        return got;
      }
      lastError := got.error;
    }
    return Err(lastError);
  }

  lemma {:induction false} PickStays(h: HashFn, parse: Parser, root: Digest, replies: Replies, j: nat, n: nat)
    requires j <= n && PickManifest(h, parse, root, replies, j).Ok?
    ensures PickManifest(h, parse, root, replies, n) == PickManifest(h, parse, root, replies, j)
  {
    hide GetManifest, RootConsistent, Validate;
    if j < n {
      PickStays(h, parse, root, replies, j, n - 1);
    }
  }

  // ---- what is missing ----

  /** The chunks `has` denies, among the first `n`, and the handle after asking. */
  function Scan(d: Disk, s: Handle, m: Manifest, n: nat): (r: (seq<nat>, Handle))
    requires n <= |m.chunks|
    ensures |r.0| <= n && forall i :: 0 <= i < |r.0| ==> r.0[i] < n
  {
    if n == 0 then ([], s)
    else
      var (missing, s1) := Scan(d, s, m, n - 1);
      var (found, s2) := HasStep(d, s1, m.chunks[n - 1].hash);
      (if found then missing else missing + [n - 1], s2)
  }

  method MissingChunks(store: Store, m: Manifest) returns (missing: seq<nat>)
    modifies store
    ensures (missing, store.View()) == Scan(store.dir.View(), old(store.View()), m, |m.chunks|)
  {
    hide HasStep;
    missing := [];
    ghost var s := store.View();
    for i := 0 to |m.chunks|
      invariant (missing, store.View()) == Scan(store.dir.View(), s, m, i)
    {
      var found := store.Has(m.chunks[i].hash);
      if !found {
        missing := missing + [i];
      }
    }
  }

  // ---- one chunk ----

  datatype Job = Job(h: HashFn, m: Manifest, missing: seq<nat>, providers: seq<Peer>, replies: Replies)
  datatype Delivery = Delivery(index: nat, bytes: Bytes, from: Peer)

  ghost predicate Sane(job: Job) {
    job.providers != [] && forall i :: 0 <= i < |job.missing| ==> job.missing[i] < |job.m.chunks|
  }

  /** The reply of provider `j` in this slot is a chunk with the right hash. */
  predicate Answers(job: Job, slot: nat, j: nat)
    requires slot < |job.missing|
  {
    var reply := GetChunk(job.replies.chunk(slot, j));
    reply.Ok? && reply.value.Some? && ChunkHashOk(job.h, job.m, job.missing[slot], reply.value.value)
  }

  /** The provider, of `n`, asked in turn `k` of a slot. */
  function Turn(n: nat, slot: nat, k: nat): (j: nat)
    requires n > 0
    ensures j < n
  {
    (slot + k) % n
  }

  /** Why provider `j` failed to deliver. */
  function Refusal(job: Job, slot: nat, j: nat): NetError
    requires Sane(job) && slot < |job.missing|
  {
    match GetChunk(job.replies.chunk(slot, j))
    case Err(e) => e
    case Ok(None) => MissingChunk(job.m.chunks[job.missing[slot]].hash)
    case Ok(Some(_)) => NetError.BadChunk
  }

  /** The turns from `k` on. */
  function TryFrom(job: Job, slot: nat, k: nat, lastError: NetError): Result<Delivery, NetError>
    requires Sane(job) && slot < |job.missing| && k <= |job.providers|
    decreases |job.providers| - k
  {
    if k == |job.providers| then Err(lastError)
    else
      var j := Turn(|job.providers|, slot, k);
      if Answers(job, slot, j)
        then Ok(Delivery(job.missing[slot], GetChunk(job.replies.chunk(slot, j)).value.value, job.providers[j]))
      else TryFrom(job, slot, k + 1, Refusal(job, slot, j))
  }

  function Deliver(job: Job, slot: nat): Result<Delivery, NetError>
    requires Sane(job) && slot < |job.missing|
  {
    TryFrom(job, slot, 0, MissingChunk(job.m.chunks[job.missing[slot]].hash))
  }

  method FetchInTurn(job: Job, slot: nat) returns (r: Result<Delivery, NetError>)
    requires Sane(job) && slot < |job.missing|
    ensures r == Deliver(job, slot)
  {
    var i, n := job.missing[slot], |job.providers|;
    var lastError := MissingChunk(job.m.chunks[i].hash);
    for k := 0 to n
      invariant TryFrom(job, slot, k, lastError) == Deliver(job, slot)
    {
      var j := (slot + k) % n;
      var got := GetChunk(job.replies.chunk(slot, j));
      match got
      case Ok(Some(bytes)) =>
        if ChunkHashOk(job.h, job.m, i, bytes) {
          return Ok(Delivery(i, bytes, job.providers[j]));
        }
        lastError := NetError.BadChunk;
      case Ok(None) =>
        lastError := MissingChunk(job.m.chunks[i].hash);
      case Err(e) =>
        lastError := e;
    }
    return Err(lastError);
  }

  // ---- draining, in completion order ----

  type Outcomes = seq<Result<Delivery, NetError>>

  function Slots(n: nat): (slots: seq<nat>)
    ensures |slots| == n && forall i :: 0 <= i < n ==> slots[i] == i
  {
    if n == 0 then [] else Slots(n - 1) + [n - 1]
  }

  /** An order in which `n` concurrent fetches may complete. */
  ghost predicate Completes(order: seq<nat>, n: nat) {
    multiset(order) == multiset(Slots(n))
  }

  ghost predicate InRange(order: seq<nat>, n: nat) {
    forall i :: 0 <= i < |order| ==> order[i] < n
  }

  lemma CompletesInRange(order: seq<nat>, n: nat)
    requires Completes(order, n)
    ensures |order| == n && InRange(order, n)
  {
    assert |multiset(order)| == |multiset(Slots(n))|;
    forall i | 0 <= i < |order|
      ensures order[i] < n
    {
      assert order[i] in multiset(order);
      assert order[i] in Slots(n);
    }
  }

  function OutcomesOf(job: Job, order: seq<nat>): (os: Outcomes)
    requires Sane(job) && InRange(order, |job.missing|)
    ensures |os| == |order|
  {
    if order == [] then [] else OutcomesOf(job, order[..|order| - 1]) + [Deliver(job, order[|order| - 1])]
  }

  function Accepted(os: Outcomes): (pieces: seq<Bytes>)
    ensures |pieces| <= |os|
  {
    if os == [] then []
    else
      var last := os[|os| - 1];
      Accepted(os[..|os| - 1]) + if last.Ok? then [last.value.bytes] else []
  }

  function Tally(os: Outcomes): map<Peer, nat> {
    if os == [] then map[]
    else
      var before := Tally(os[..|os| - 1]);
      match os[|os| - 1]
      case Ok(dv) => before[dv.from := (if dv.from in before then before[dv.from] else 0) + |dv.bytes|]
      case Err(_) => before
  }

  function FirstFailure(os: Outcomes): Option<NetError> {
    if os == [] then None
    else
      var before := FirstFailure(os[..|os| - 1]);
      if before.None? && os[|os| - 1].Err? then Some(os[|os| - 1].error) else before
  }

  /** The progress reports: where the download starts, and one more for every chunk stored. */
  function Reports(done: nat, count: nat, total: nat): (rs: seq<(nat, nat)>)
    ensures |rs| == count + 1
    ensures forall i :: 0 <= i <= count ==> rs[i] == (done + i, total)
  {
    if count == 0 then [(done, total)] else Reports(done, count - 1, total) + [(done + count, total)]
  }

  function Payable(tally: map<Peer, nat>): map<Peer, nat> {
    map p | p in tally && tally[p] > 0 :: tally[p]
  }

  /** How many puts succeed before the first that fails. */
  function PutCount(h: HashFn, d: Disk, s: Handle, pieces: seq<Bytes>): (n: nat)
    ensures n <= |pieces|
  {
    if pieces == [] || PutAll(h, d, s, pieces).result.Ok? then |pieces|
    else PutCount(h, d, s, pieces[..|pieces| - 1])
  }

  datatype Fetched = Fetched(disk: Disk, handle: Handle, result: Result<Manifest, NetError>, progress: seq<(nat, nat)>,
    receipts: map<Peer, nat>)

  /** Draining a job: a failed chunk is remembered and the rest goes on; a failed put ends it. */
  function Drained(job: Job, os: Outcomes, d: Disk, s: Handle): Fetched
    requires |job.missing| <= |job.m.chunks|
  {
    var total := |job.m.chunks|;
    var done := total - |job.missing|;
    var o := PutAll(job.h, d, s, Accepted(os));
    var progress := Reports(done, PutCount(job.h, d, s, Accepted(os)), total);
    if o.result.Err? then Fetched(o.disk, o.handle, Err(StoreFailed(o.result.error)), progress, map[])
    else
      var result := match FirstFailure(os) case None => Ok(job.m) case Some(e) => Err(e);
      Fetched(o.disk, o.handle, result, progress, Payable(Tally(os)))
  }

  method SendReceipts(tally: map<Peer, nat>) returns (receipts: map<Peer, nat>)
    ensures receipts == Payable(tally)
  {
    receipts := map[];
    var todo := tally.Keys;
    while todo != {}
      invariant todo <= tally.Keys
      invariant receipts == map p | p in tally && p !in todo && tally[p] > 0 :: tally[p]
      decreases |todo|
    {
      var p :| p in todo;
      todo := todo - {p};
      if tally[p] > 0 {
        receipts := receipts[p := tally[p]];
      }
    }
  }

  lemma AcceptedSnoc(os: Outcomes, n: nat)
    requires n < |os|
    ensures os[..n + 1][..n] == os[..n]
    ensures Accepted(os[..n + 1]) == Accepted(os[..n]) + if os[n].Ok? then [os[n].value.bytes] else []
  {
    assert os[..n + 1][..n] == os[..n];
  }

  lemma {:induction false} AcceptedStarts(os: Outcomes, n: nat)
    requires n <= |os|
    ensures |Accepted(os[..n])| <= |Accepted(os)|
    ensures Accepted(os[..n]) + Accepted(os)[|Accepted(os[..n])|..] == Accepted(os)
    decreases |os|
  {
    if n == |os| {
      assert os[..n] == os;
    } else {
      AcceptedStarts(os[..|os| - 1], n);
      assert os[..|os| - 1][..n] == os[..n];
    }
  }

  /** After a put fails, the count of successful ones and the error are settled. */
  lemma {:induction false} FailureSettles(h: HashFn, d: Disk, s: Handle, done: seq<Bytes>, bad: Bytes, more: seq<Bytes>)
    requires PutAll(h, d, s, done).result.Ok? && PutAll(h, d, s, done + [bad]).result.Err?
    ensures PutAll(h, d, s, done + [bad] + more) == PutAll(h, d, s, done + [bad])
    ensures PutCount(h, d, s, done + [bad] + more) == |done|
  {
    hide PutAll;
    var pieces := done + [bad] + more;
    PutAllStops(h, d, s, done + [bad], more);
    if more == [] {
      EmptyTail(done + [bad]);
      assert pieces[..|pieces| - 1] == done;
      CountAll(h, d, s, done);
    } else {
      FailureSettles(h, d, s, done, bad, more[..|more| - 1]);
      assert pieces[..|pieces| - 1] == done + [bad] + more[..|more| - 1];
    }
  }

  lemma CountAll(h: HashFn, d: Disk, s: Handle, pieces: seq<Bytes>)
    requires PutAll(h, d, s, pieces).result.Ok?
    ensures PutCount(h, d, s, pieces) == |pieces|
  {
  }

  lemma {:induction false} OutcomeAt(job: Job, order: seq<nat>, t: nat)
    requires Sane(job) && InRange(order, |job.missing|) && t < |order|
    ensures OutcomesOf(job, order)[t] == Deliver(job, order[t])
  {
    hide Deliver;
    if t < |order| - 1 {
      OutcomeAt(job, order[..|order| - 1], t);
    }
  }

  method Drain(store: Store, job: Job, order: seq<nat>)
    returns (r: Result<Manifest, NetError>, progress: seq<(nat, nat)>, receipts: map<Peer, nat>)
    requires Sane(job) && InRange(order, |job.missing|) && |job.missing| <= |job.m.chunks| && job.h == store.h
    modifies store, store.dir
    ensures Fetched(store.dir.View(), store.View(), r, progress, receipts)
         == Drained(job, OutcomesOf(job, order), old(store.dir.View()), old(store.View()))
  {
    hide PutAll, PutStep, Deliver, Payable, Accepted, OutcomesOf, Reports, PutCount;
    ghost var d, s, os := store.dir.View(), store.View(), OutcomesOf(job, order);
    ghost var base := |job.m.chunks| - |job.missing|;
    var total := |job.m.chunks|;
    var done: nat := total - |job.missing|;
    progress := [(done, total)];
    receipts := map[];
    var tally: map<Peer, nat>, failure: Option<NetError> := map[], None;
    NothingDrained(job.h, d, s, os, done, total);
    for t := 0 to |order|
      invariant PutAll(job.h, d, s, Accepted(os[..t])) == StoredOut(store.dir.View(), store.View(), Ok(()))
      invariant tally == Tally(os[..t]) && failure == FirstFailure(os[..t])
      invariant done == base + |Accepted(os[..t])|
      invariant progress == Reports(base, |Accepted(os[..t])|, total)
      invariant receipts == map[]
    {
      AcceptedSnoc(os, t);
      OutcomeAt(job, order, t);
      var result := FetchInTurn(job, order[t]);
      match result
      case Ok(dv) =>
        ghost var before := Accepted(os[..t]);
        tally := tally[dv.from := (if dv.from in tally then tally[dv.from] else 0) + |dv.bytes|];
        PutAllSnoc(job.h, d, s, before, dv.bytes);
        var put := store.Put(dv.bytes);
        if put.Err? {
          AcceptedStarts(os, t + 1);
          FailureSettles(job.h, d, s, before, dv.bytes, Accepted(os)[|before| + 1..]);
          return Err(StoreFailed(put.error)), progress, receipts;
        }
        done := done + 1;
        ReportsSnoc(base, |before|, total);
        progress := progress + [(done, total)];
      case Err(e) =>
        EmptyTail(Accepted(os[..t]));
        if failure.None? {
          failure := Some(e);
        }
    }
    assert os[..|order|] == os;
    CountAll(job.h, d, s, Accepted(os));
    receipts := SendReceipts(tally);
    r := match failure case Some(e) => Err(e) case None => Ok(job.m);
  }

  lemma NothingDrained(h: HashFn, d: Disk, s: Handle, os: Outcomes, done: nat, total: nat)
    ensures Accepted(os[..0]) == [] && PutAll(h, d, s, Accepted(os[..0])) == StoredOut(d, s, Ok(()))
    ensures Reports(done, 0, total) == [(done, total)]
  {
  }

  lemma ReportsSnoc(done: nat, count: nat, total: nat)
    ensures Reports(done, count + 1, total) == Reports(done, count, total) + [(done + count + 1, total)]
  {
  }

  // ---- the whole download ----

  /** The order in which that many fetches complete is up to the network. */
  type Schedule = nat -> seq<nat>

  ghost predicate Schedules(schedule: Schedule) {
    forall n: nat :: Completes(schedule(n), n)
  }

  function JobFor(h: HashFn, m: Manifest, providers: seq<Peer>, replies: Replies, d: Disk, s: Handle): (job: Job)
    requires providers != []
    ensures Sane(job) && |job.missing| <= |job.m.chunks|
  {
    Job(h, m, Scan(d, s, m, |m.chunks|).0, providers, replies)
  }

  function DownloadMulti(h: HashFn, parse: Parser, root: Digest, providers: seq<Peer>, replies: Replies,
                      schedule: Schedule,
                         d: Disk, s: Handle): Fetched
    requires Schedules(schedule)
  {
    match PickManifest(h, parse, root, replies, |providers|)
    case Err(e) => Fetched(d, s, Err(e), [], map[])
    case Ok(m) =>
      var job := JobFor(h, m, providers, replies, d, s);
      CompletesInRange(schedule(|job.missing|), |job.missing|);
      Drained(job, OutcomesOf(job, schedule(|job.missing|)), d, Scan(d, s, m, |m.chunks|).1)
  }

  method Download(store: Store, parse: Parser, root: Digest, providers: seq<Peer>, replies: Replies, schedule: Schedule)
    returns (r: Result<Manifest, NetError>, progress: seq<(nat, nat)>, receipts: map<Peer, nat>)
    requires Schedules(schedule)
    modifies store, store.dir
    ensures Fetched(store.dir.View(), store.View(), r, progress, receipts)
         == DownloadMulti(store.h, parse, root, providers, replies, schedule, old(store.dir.View()), old(store.View()))
  {
    hide PickManifest, Scan, Drained, OutcomesOf, Completes;
    ghost var d, s := store.dir.View(), store.View();
    if providers == [] {
      NobodyPicked(store.h, parse, root, replies);
      return Err(NoProviders), [], map[];
    }
    var got := FirstManifest(store.h, parse, root, replies, |providers|);
    if got.Err? {
      return Err(got.error), [], map[];
    }
    var m := got.value;
    var missing := MissingChunks(store, m);
    var job := Job(store.h, m, missing, providers, replies);
    ghost var same := JobFor(store.h, m, providers, replies, d, s);
    CompletesInRange(schedule(|missing|), |missing|);
    r, progress, receipts := Drain(store, job, schedule(|missing|));
  }

  lemma NobodyPicked(h: HashFn, parse: Parser, root: Digest, replies: Replies)
    ensures PickManifest(h, parse, root, replies, 0) == Err(NoProviders)
  {
  }
}
