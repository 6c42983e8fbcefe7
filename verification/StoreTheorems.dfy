/** Whole runs of the store: the invariant always holds, packed chunks stay visible to every
    handle, and what crashes lose. */
module StoreTheorems {
  import opened Basics
  import opened Text
  import opened IndexLog
  import opened StoreSpec
  import opened StoreInvariant
  import opened StoreSteps

  // ---- whole runs ----

  /** What the complete lines of the index file spell. */
  ghost function PackedLog(d: Disk): seq<IndexEntry> {
    Entries(Whole(d.index))
  }

  lemma PackedLogIs(h: HashFn, d: Disk, log: seq<IndexEntry>, torn: Bytes)
    requires DiskInv(h, d, log, torn)
    ensures PackedLog(d) == log
  {
    LogAllRepresentable(h, d, log);
    CompleteIsRendered(log, torn);
    EntriesOfRendered(log);
    hide Render, Entries, CompleteLength;
  }

  lemma GrownTrans(d: Disk, d': Disk, d'': Disk)
    requires Grown(d, d') && Grown(d', d'')
    ensures Grown(d, d'')
  {
    forall p | p in d.packs
      ensures p in d''.packs && d.packs[p] <= d''.packs[p]
    {
      PrefixTrans(d.packs[p], d'.packs[p], d''.packs[p]);
    }
  }

  lemma PrefixTrans<T>(a: seq<T>, b: seq<T>, c: seq<T>)
    requires a <= b && b <= c
    ensures a <= c
  {
    assert b[..|a|] == a && c[..|b|] == b;
    assert c[..|a|] == b[..|a|];
  }

  /** No crash inside the trim of an `open` between two states. */
  ghost predicate NoTrimCrash(acts: seq<Action>, i: nat, j: nat) {
    forall k :: i <= k < j && k < |acts| ==> !acts[k].CrashTrimming?
  }

  /** The invariant holds at every state of every run. Packs only grow, and so does the log except
      where a crash hit the trim of an `open`. */
  lemma {:induction false} RunKeeps(h: HashFn, states: seq<System>, acts: seq<Action>, i: nat, j: nat)
    returns (log: seq<IndexEntry>, torn: Bytes, log': seq<IndexEntry>, torn': Bytes)
    requires Run(h, states, acts) && i <= j < |states|
    ensures SystemInv(h, states[i], log, torn) && SystemInv(h, states[j], log', torn')
    ensures Grown(states[i].disk, states[j].disk)
    ensures NoTrimCrash(acts, i, j) ==> log <= log'
    decreases j
  {
    hide Step, Orderly, HandleInv, Grown, Adds, LinesWithin;
    if j == 0 {
      log, torn := [], [];
      assert Render([]) == [];
      log', torn' := log, torn;
      GrownSelf(states[0].disk);
    } else if i == j {
      var _, _, l, t := RunKeeps(h, states, acts, 0, j - 1);
      log, torn := StepKeeps(h, states[j - 1], acts[j - 1], states[j], l, t);
      log', torn' := log, torn;
      GrownSelf(states[j].disk);
    } else {
      var l, t;
      log, torn, l, t := RunKeeps(h, states, acts, i, j - 1);
      log', torn' := StepKeeps(h, states[j - 1], acts[j - 1], states[j], l, t);
      GrownTrans(states[i].disk, states[j - 1].disk, states[j].disk);
      if NoTrimCrash(acts, i, j) {
        OtherStepsGrow(h, states[j - 1], acts[j - 1], states[j], l, log');
        PrefixTrans(log, l, log');
      }
    }
  }

  lemma OtherStepsGrow(h: HashFn, a: System, act: Action, b: System, log: seq<IndexEntry>, log': seq<IndexEntry>)
    requires LogStep(h, a, act, b, log, log') && !act.CrashTrimming?
    ensures log <= log'
  {
    hide Packs, NewEntry, Holds;
  }

  /** One step of a run, in terms of what the index files spell. */
  lemma RunStep(h: HashFn, states: seq<System>, acts: seq<Action>, n: nat)
    requires Run(h, states, acts) && n < |acts|
    ensures LogStep(h, states[n], acts[n], states[n + 1], PackedLog(states[n].disk), PackedLog(states[n + 1].disk))
    ensures Grown(states[n].disk, states[n + 1].disk)
  {
    hide Step, Orderly, HandleInv, Grown, LogStep, DiskInv, PackedLog;
    var _, _, log, torn := RunKeeps(h, states, acts, n, n);
    var log', torn' := StepKeeps(h, states[n], acts[n], states[n + 1], log, torn);
    PackedLogIs(h, states[n].disk, log, torn);
    PackedLogIs(h, states[n + 1].disk, log', torn');
  }

  // ---- looking up ----

  lemma {:induction false} InsertUntouched(log: seq<IndexEntry>, index: Index, x: Digest)
    requires x !in LogKeys(log)
    ensures x in InsertAll(log, index) <==> x in index
    ensures x in index ==> InsertAll(log, index)[x] == index[x]
  {
    if log != [] {
      LogKeysCons(log);
      InsertUntouched(log[1..], index[log[0].hash := log[0].loc], x);
    }
  }

  ghost predicate AllApart(log: seq<IndexEntry>) {
    forall i, j :: 0 <= i < j < |log| ==> Apart(log[i], log[j])
  }

  lemma {:induction false} InsertFinds(log: seq<IndexEntry>, index: Index, i: nat)
    requires AllApart(log) && i < |log|
    ensures log[i].hash in InsertAll(log, index) && InsertAll(log, index)[log[i].hash] == log[i].loc
  {
    var rest, index' := log[1..], index[log[0].hash := log[0].loc];
    if i > 0 {
      InsertFinds(rest, index', i - 1);
    } else {
      assert log[0].hash !in LogKeys(rest) by {
        forall j | 0 <= j < |rest|
          ensures rest[j].hash != log[0].hash
        {
          assert Apart(log[0], log[j + 1]);
        }
      }
      InsertUntouched(rest, index', log[0].hash);
    }
  }

  /** What `get` answers for a packed chunk: the bytes its entry names, checked against its key. */
  ghost function Answer(h: HashFn, packs: map<nat, Bytes>, e: IndexEntry): Result<Option<Bytes>, StoreError>
    requires InBounds(packs, e)
  {
    if Sound(h, packs, e) then Ok(Some(Region(packs, e))) else Err(Corrupt(e.hash))
  }

  lemma EntryBytes(h: HashFn, d: Disk, s: Handle, e: IndexEntry)
    requires InBounds(d.packs, e) && e.hash in s.index && s.index[e.hash] == e.loc
    ensures ReadIndexed(h, d, s, e.hash) == Answer(h, d.packs, e)
  {
    assert e.loc.length == 0 ==> Region(d.packs, e) == [];
  }

  /** Any handle of any state that meets the invariant has every packed chunk, and reads exactly
      the bytes its entry names, however stale the handle is and whatever became of source files. */
  lemma PackedIsFound(h: HashFn, d: Disk, s: Handle, sources: Sources, log: seq<IndexEntry>, torn: Bytes, i: nat)
    requires DiskInv(h, d, log, torn) && HandleInv(d, s, log) && i < |log|
    ensures HasStep(d, s, log[i].hash).0
    ensures InBounds(d.packs, log[i])
    ensures GetStep(h, d, s, sources, log[i].hash).0 == Answer(h, d.packs, log[i])
  {
    hide Render, InsertAll, RefreshIndex, ReadReference, RefsInv, Region, Held;
    var e := log[i];
    assert e.hash in LogKeys(log);
    HeldInBounds(h, d.packs, e);
    HasKeeps(h, d, s, log, torn, e.hash);
    RefreshReaches(h, d, s, log, torn);
    InsertFinds(log, map[], i);
    EntryBytes(h, d, RefreshIndex(d, s), e);
    if e.hash in s.index {
      var k: nat :| InSync(s, log, k);
      PrefixLookup(log, k, i);
      EntryBytes(h, d, s, e);
    } else {
      NotReferenced(h, s, sources, e.hash);
    }
    hide ReadIndexed, HasStep;
  }

  lemma NotReferenced(h: HashFn, s: Handle, sources: Sources, x: Digest)
    requires x !in s.refs
    ensures ReadReference(h, s, sources, x) == Ok(None)
  {
  }

  lemma PrefixLookup(log: seq<IndexEntry>, k: nat, i: nat)
    requires AllApart(log) && k <= |log| && i < |log| && log[i].hash in InsertAll(log[..k], map[])
    ensures InsertAll(log[..k], map[])[log[i].hash] == log[i].loc
  {
    InsertKeys(log[..k], map[]);
    var j :| 0 <= j < k && log[..k][j].hash == log[i].hash;
    assert AllApart(log[..k]);
    InsertFinds(log[..k], map[], j);
    assert log[j].hash == log[i].hash;
  }

  // ---- where entries come from ----

  /** Step `m` of the run put this entry into the index, for the chunk `acts[m].bytes`. */
  ghost predicate Wrote(h: HashFn, states: seq<System>, acts: seq<Action>, m: nat, e: IndexEntry)
    requires |states| == |acts| + 1
  {
    && m < |acts| && (acts[m].Put? || acts[m].Crash?) && acts[m].id in states[m].handles
    && Packs(h, states[m].disk, states[m].handles[acts[m].id], acts[m].bytes)
    && e == NewEntry(h, states[m].disk, states[m].handles[acts[m].id], acts[m].bytes)
  }

  /** Every entry of every state was written by a `put` of the run, and the packs still hold that
      chunk, all of it, where the entry says. */
  lemma {:induction false} EntryOrigin(h: HashFn, states: seq<System>, acts: seq<Action>, n: nat,
                      e: IndexEntry) returns (m: nat)
    requires Run(h, states, acts) && n < |states| && e in PackedLog(states[n].disk)
    ensures m < n && Wrote(h, states, acts, m, e) && Holds(h, states[n].disk.packs, e, acts[m].bytes)
  {
    hide Step, Orderly, PackedLog, Packs, NewEntry, Holds, LinesWithin, Grown;
    if n == 0 {
      NothingPacked(states[0]);
    } else {
      RunStep(h, states, acts, n - 1);
      var before := PackedLog(states[n - 1].disk);
      if e in before {
        m := EntryOrigin(h, states, acts, n - 1, e);
        GrownHolds(h, states[n - 1].disk, states[n].disk, e, acts[m].bytes);
      } else {
        m := n - 1;
      }
    }
  }

  lemma NothingPacked(a: System)
    requires Initial(a)
    ensures PackedLog(a.disk) == []
  {
  }

  lemma GrownHolds(h: HashFn, d: Disk, d': Disk, e: IndexEntry, bytes: Bytes)
    requires Holds(h, d.packs, e, bytes) && Grown(d, d')
    ensures Holds(h, d'.packs, e, bytes)
  {
    HoldsGrows(h, d.packs, d'.packs, e, bytes);
  }

  // ---- the theorems ----

  /** In every run, each handle's in-memory index is what the index file spells up to the handle's
      cursor, the cursor stands at a line boundary, and every entry names in-bounds bytes at the
      start of a chunk that hashes to its key, however stale the handle's notion of the current
      pack is. The bytes named are the whole chunk exactly when it was below 4 GiB. */
  lemma CacheAgreesWithLog(h: HashFn, states: seq<System>, acts: seq<Action>, n: nat, id: nat)
    requires Run(h, states, acts) && n < |states| && id in states[n].handles
    ensures var d, s := states[n].disk, states[n].handles[id];
      && s.pos <= |d.index|
      && (s.pos > 0 ==> d.index[s.pos - 1] == NEWLINE)
      && s.index == InsertAll(Entries(d.index[..s.pos]), map[])
      && forall x :: x in s.index ==> Traced(h, states, acts, n, IndexEntry(x, s.index[x]))
  {
    hide Step, Orderly, Entries, InsertAll, Render, LogInv, Traced;
    var _, _, log, torn := RunKeeps(h, states, acts, n, n);
    var d, s := states[n].disk, states[n].handles[id];
    assert HandleInv(d, s, log);
    var k: nat :| InSync(s, log, k);
    SyncedCursor(h, d, s, log, torn, k);
    SyncedEntries(h, d, s, log, k);
    PackedLogIs(h, d, log, torn);
    forall x | x in s.index
      ensures Traced(h, states, acts, n, IndexEntry(x, s.index[x]))
    {
      EntryTraced(h, states, acts, n, IndexEntry(x, s.index[x]));
    }
  }

  /** The entry stems from a `put` of the run: the packs hold its chunk, and what the entry names is
      that chunk if and only if it was below 4 GiB. */
  ghost predicate Traced(h: HashFn, states: seq<System>, acts: seq<Action>, n: nat, e: IndexEntry)
    requires |states| == |acts| + 1 && n < |states|
  {
    InBounds(states[n].disk.packs, e) && exists m: nat ::
      && m < n && Wrote(h, states, acts, m, e)
      && Holds(h, states[n].disk.packs, e, acts[m].bytes)
      && (Region(states[n].disk.packs, e) == acts[m].bytes <==> |acts[m].bytes| <= U32_MAX)
  }

  lemma EntryTraced(h: HashFn, states: seq<System>, acts: seq<Action>, n: nat, e: IndexEntry)
    requires Run(h, states, acts) && n < |states| && e in PackedLog(states[n].disk)
    ensures Traced(h, states, acts, n, e)
  {
    hide Step, Orderly, PackedLog, Packs, NewEntry, Holds, Region, Wrote;
    var m := EntryOrigin(h, states, acts, n, e);
    WroteAt(h, states, acts, m, e);
    HeldRegion(h, states[n].disk.packs, e, acts[m].bytes);
  }

  lemma WroteAt(h: HashFn, states: seq<System>, acts: seq<Action>, m: nat, e: IndexEntry)
    requires |states| == |acts| + 1 && Wrote(h, states, acts, m, e)
    ensures m < |acts| && (acts[m].Put? || acts[m].Crash?)
  {
  }

  lemma SyncedCursor(h: HashFn, d: Disk, s: Handle, log: seq<IndexEntry>, torn: Bytes, k: nat)
    requires DiskInv(h, d, log, torn) && InSync(s, log, k)
    ensures s.pos <= |d.index|
    ensures s.pos > 0 ==> d.index[s.pos - 1] == NEWLINE
    ensures s.index == InsertAll(Entries(d.index[..s.pos]), map[])
  {
    hide Render, InsertAll, Entries, Sound, Apart;
    var head := log[..k];
    assert log == head + log[k..];
    RenderAppend(head, log[k..]);
    EmptyTail(Render(log));
    assert d.index[..s.pos] == Render(head);
    if k > 0 {
      RenderEndsLine(head);
    } else {
      EmptyRender(head);
    }
    LogAllRepresentable(h, d, log);
    assert AllRepresentable(head);
    EntriesOfRendered(head);
  }

  lemma EmptyRender(log: seq<IndexEntry>)
    requires log == []
    ensures Render(log) == []
  {
  }

  lemma SyncedEntries(h: HashFn, d: Disk, s: Handle, log: seq<IndexEntry>, k: nat)
    requires LogInv(h, d, log) && InSync(s, log, k)
    ensures forall x :: x in s.index ==> IndexEntry(x, s.index[x]) in log
  {
    hide Render, InsertAll, Held, Apart;
    InsertKeys(log[..k], map[]);
    forall x | x in s.index
      ensures IndexEntry(x, s.index[x]) in log
    {
      var i :| 0 <= i < k && log[..k][i].hash == x;
      PrefixLookup(log, k, i);
      assert log[i] == IndexEntry(x, s.index[x]);
    }
  }

  /** Over all handles together, in every state of every run: no chunk is packed twice, the
      recorded regions do not overlap, and nothing packed is also a legacy object. */
  lemma NothingPackedTwice(h: HashFn, states: seq<System>, acts: seq<Action>, n: nat)
    requires Run(h, states, acts) && n < |states|
    ensures AllApart(PackedLog(states[n].disk))
    ensures LogKeys(PackedLog(states[n].disk)) !! states[n].disk.objects.Keys
  {
    hide Step, Orderly, HandleInv, PackedLog;
    var _, _, log, torn := RunKeeps(h, states, acts, n, n);
    PackedLogIs(h, states[n].disk, log, torn);
    NoObjects(h, states[n].disk, log);
  }

  /** Once packed, always found: at every later state, every open handle has the chunk and reads
      exactly what the entry named then. Only a crash inside a trim could have dropped the entry, and
      then exactly as `TornLines.TrimCrashKeeps` says. */
  lemma PackedStaysVisible(h: HashFn, states: seq<System>, acts: seq<Action>, m: nat, n: nat, e: IndexEntry, id: nat,
                      sources: Sources)
    requires Run(h, states, acts) && m <= n < |states|
    requires e in PackedLog(states[m].disk) && id in states[n].handles
    requires NoTrimCrash(acts, m, n) || e in PackedLog(states[n].disk)
    ensures InBounds(states[m].disk.packs, e)
    ensures HasStep(states[n].disk, states[n].handles[id], e.hash).0
    ensures GetStep(h, states[n].disk, states[n].handles[id], sources, e.hash).0 == Answer(h, states[m].disk.packs, e)
  {
    hide Step, Orderly, HasStep, GetStep, PackedLog, HandleInv, Render, Entries, Apart, Region, Held;
    var log, torn, log', torn' := RunKeeps(h, states, acts, m, n);
    PackedLogIs(h, states[m].disk, log, torn);
    PackedLogIs(h, states[n].disk, log', torn');
    assert NoTrimCrash(acts, m, n) ==> e in log';
    var i :| 0 <= i < |log'| && log'[i] == e;
    HeldInBounds(h, states[m].disk.packs, e);
    RegionGrows(states[m].disk.packs, states[n].disk.packs, e);
    PackedIsFound(h, states[n].disk, states[n].handles[id], sources, log', torn', i);
  }

  /** A `put` that packs appends its own entry, as a line that parses, at every state of every run,
      whatever crashes and reopenings came before. */
  lemma PutAppends(h: HashFn, states: seq<System>, acts: seq<Action>, m: nat)
    requires Run(h, states, acts) && m < |acts| && acts[m].Put?
    requires acts[m].id in states[m].handles && Packs(h, states[m].disk, states[m].handles[acts[m].id], acts[m].bytes)
    ensures var e := NewEntry(h, states[m].disk, states[m].handles[acts[m].id], acts[m].bytes);
      && PackedLog(states[m + 1].disk) == PackedLog(states[m].disk) + [e]
      && Holds(h, states[m + 1].disk.packs, e, acts[m].bytes)
  {
    hide Step, Orderly, PackedLog, Packs, NewEntry, Holds, Grown;
    RunStep(h, states, acts, m);
  }

  /** And it reads back: at every later state every open handle has the chunk, and gets exactly the
      bytes that were put if and only if they were below 4 GiB. */
  lemma PutStaysVisible(h: HashFn, states: seq<System>, acts: seq<Action>, m: nat, n: nat, id: nat, sources: Sources)
    requires Run(h, states, acts) && m < n < |states| && acts[m].Put?
    requires acts[m].id in states[m].handles && Packs(h, states[m].disk, states[m].handles[acts[m].id], acts[m].bytes)
    requires id in states[n].handles
    requires || NoTrimCrash(acts, m, n)
             || NewEntry(h, states[m].disk, states[m].handles[acts[m].id], acts[m].bytes) in PackedLog(states[n].disk)
    ensures var d, s, bytes := states[n].disk, states[n].handles[id], acts[m].bytes;
      && HasStep(d, s, h(bytes)).0
      && (GetStep(h, d, s, sources, h(bytes)).0 == Ok(Some(bytes)) <==> |bytes| <= U32_MAX)
  {
    hide Step, Orderly, HasStep, GetStep, PackedLog, Packs, Holds, Region, WritePack, BeforeWrite;
    var e := NewEntry(h, states[m].disk, states[m].handles[acts[m].id], acts[m].bytes);
    PutAppends(h, states, acts, m);
    var log := PackedLog(states[m + 1].disk);
    assert log[|log| - 1] == e;
    PackedStaysVisible(h, states, acts, m + 1, n, e, id, sources);
    HeldRegion(h, states[m + 1].disk.packs, e, acts[m].bytes);
  }

  /** `get` succeeds with bytes that hash to the key. */
  ghost predicate Reads(h: HashFn, d: Disk, s: Handle, sources: Sources, x: Digest) {
    exists chunk :: GetStep(h, d, s, sources, x).0 == Ok(Some(chunk)) && h(chunk) == x
  }

  /** `get` answers for the entry what `packs` had for it. */
  ghost predicate AnswersAs(h: HashFn, packs: map<nat, Bytes>, d: Disk, s: Handle, sources: Sources, e: IndexEntry) {
    InBounds(packs, e) && GetStep(h, d, s, sources, e.hash).0 == Answer(h, packs, e)
  }

  /** Crash inside a `put` and reopen: nothing that was completely indexed is lost, at most the
      chunk being written is gained, and the new handle knows exactly the completed entries and
      answers for every one as before. What later appends do is `PutAppends`. */
  lemma CrashRecovers(h: HashFn, states: seq<System>, acts: seq<Action>, n: nat, id: nat)
    requires Run(h, states, acts) && n + 1 < |acts| && acts[n].Crash? && acts[n + 1] == Open(id)
    ensures id in states[n + 2].handles
    ensures var d, s := states[n + 2].disk, states[n + 2].handles[id];
      && PackedLog(states[n].disk) <= PackedLog(states[n + 1].disk) == PackedLog(d)
      && |PackedLog(d)| <= |PackedLog(states[n].disk)| + 1
      && s.index.Keys == LogKeys(PackedLog(d))
      && forall e, sources :: e in PackedLog(states[n].disk) ==> AnswersAs(h, states[n].disk.packs, d, s, sources, e)
  {
    hide PackedLog, GetStep, HandleInv, InBounds, Region, Packs, NewEntry, Holds, Grown;
    RunStep(h, states, acts, n);
    RunStep(h, states, acts, n + 1);
    OpenedKnowsAll(h, states, acts, n + 1, id);
    hide Run;
    var d, s := states[n + 2].disk, states[n + 2].handles[id];
    forall e, sources | e in PackedLog(states[n].disk)
      ensures AnswersAs(h, states[n].disk.packs, d, s, sources, e)
    {
      PackedStaysVisible(h, states, acts, n, n + 2, e, id, sources);
    }
  }

  /** A handle just opened knows exactly the completed entries. */
  lemma OpenedKnowsAll(h: HashFn, states: seq<System>, acts: seq<Action>, n: nat, id: nat)
    requires Run(h, states, acts) && n < |acts| && acts[n] == Open(id)
    ensures id in states[n + 1].handles
    ensures states[n + 1].handles[id].index.Keys == LogKeys(PackedLog(states[n + 1].disk))
  {
    hide PackedLog, HandleInv, DiskInv, Opened;
    var _, _, log, torn := RunKeeps(h, states, acts, n, n);
    var a, b := states[n], states[n + 1];
    assert Step(h, a, acts[n], b);
    var s :| Opened(a.disk, b.disk, s) && b.handles == a.handles[id := s];
    OpenKeeps(h, a.disk, b.disk, s, log, torn);
    PackedLogIs(h, b.disk, log, []);
    assert log[..|log|] == log;
    InsertKeys(log, map[]);
    hide LogKeys, InsertAll;
  }

  // ---- the length cast ----

  /** The 32-bit length cast: a freshly packed chunk reads back if and only if it is below 4 GiB. */
  lemma PackedReadsBackIffSmall(h: HashFn, d: Disk, s: Handle, bytes: Bytes)
    requires Packs(h, d, s, bytes)
    ensures var out := PutStep(h, d, s, bytes);
      ReadIndexed(h, out.disk, out.handle, h(bytes)) == Ok(Some(bytes)) <==> |bytes| <= U32_MAX
  {
    hide HasStep, WritePack, BeforeWrite, FormatEntry, PutStep;
    var s1 := BeforeWrite(d, s, h(bytes));
    PutShape(h, d, s, bytes);
    WrittenAt(d, s1, bytes);
    var loc := WritePack(d, s1, bytes).result.value;
    AppendedTail(PackBytes(d, loc.pack), bytes);
  }
}
