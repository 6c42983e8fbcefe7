/** Every step of the store keeps the invariant, and what each does to the log of packed chunks. */
module StoreSteps {
  import opened Basics
  import opened Text
  import opened IndexLog
  import opened RefLog
  import opened StoreSpec
  import opened StoreInvariant

  // ---- put ----

  ghost function NewEntry(h: HashFn, d: Disk, s: Handle, bytes: Bytes): IndexEntry
    requires Packs(h, d, s, bytes)
  {
    IndexEntry(h(bytes), WritePack(d, BeforeWrite(d, s, h(bytes)), bytes).result.value)
  }

  ghost function LogAfterPut(h: HashFn, d: Disk, s: Handle, bytes: Bytes, log: seq<IndexEntry>): seq<IndexEntry> {
    if Packs(h, d, s, bytes) then log + [NewEntry(h, d, s, bytes)] else log
  }

  lemma RenderSnoc(log: seq<IndexEntry>, e: IndexEntry)
    ensures Render(log + [e]) == Render(log) + FormatEntry(e)
    ensures InsertAll(log + [e], map[]) == InsertAll(log, map[])[e.hash := e.loc]
  {
    assert (log + [e])[..|log|] == log;
    InsertAppend(log, [e], map[]);
  }

  /** The chunk about to be packed is nowhere yet: not in the log, the objects or any reference. */
  lemma NotDuplicate(h: HashFn, d: Disk, s: Handle, x: Digest, log: seq<IndexEntry>, torn: Bytes)
    requires DiskInv(h, d, log, torn) && HandleInv(d, s, log) && !Duplicate(d, s, x)
    ensures x !in LogKeys(log) && x !in d.objects && x !in RefKeys(References(Whole(d.refs)))
  {
    BeforeWriteKeeps(h, d, s, log, torn, x);
    InsertKeys(log, map[]);
    hide BeforeWrite, InsertAll, HandleInv, DiskInv, HasStep;
  }

  lemma PackedDisk(h: HashFn, d: Disk, s: Handle, bytes: Bytes, log: seq<IndexEntry>)
    requires DiskInv(h, d, log, []) && HandleInv(d, s, log)
    requires Packs(h, d, s, bytes)
    ensures var w := WritePack(d, BeforeWrite(d, s, h(bytes)), bytes).disk;
      && Grown(d, w) && w.index == d.index
      && LogInv(h, w, log + [NewEntry(h, d, s, bytes)])
      && Holds(h, w.packs, NewEntry(h, d, s, bytes), bytes)
  {
    var x := h(bytes);
    var s1 := BeforeWrite(d, s, x);
    BeforeWriteKeeps(h, d, s, log, [], x);
    NotDuplicate(h, d, s, x, log, []);
    hide BeforeWrite, InsertAll, Duplicate, Render;
    WritePackEffect(d, s1, bytes);
    WrittenHeld(h, d, s1, bytes);
    WrittenAt(d, s1, bytes);
    hide WritePack, Holds, Grown;
    LogInvSnoc(h, d, WritePack(d, s1, bytes).disk, log, NewEntry(h, d, s, bytes));
  }

  lemma KeepsCurrent(d: Disk, s: Handle, x: Digest)
    ensures var s1 := BeforeWrite(d, s, x); s1.currentId == s.currentId && s1.currentSize == s.currentSize
  {
    hide InsertAll, Entries, InsertRefs, References, CompleteLength;
  }

  lemma PutShape(h: HashFn, d: Disk, s: Handle, bytes: Bytes)
    ensures var x, s1 := h(bytes), BeforeWrite(d, s, h(bytes));
      var w := WritePack(d, s1, bytes);
      PutStep(h, d, s, bytes) ==
        if HasStep(d, s, x).0 then PutOut(d, HasStep(d, s, x).1, Ok((x, false)))
        else if Known(d, s1, x) then PutOut(d, s1, Ok((x, false)))
        else if w.result.Err? then PutOut(w.disk, w.handle, Err(w.result.error))
        else PutOut(w.disk.(index := w.disk.index + FormatEntry(NewEntry(h, d, s, bytes))),
                    w.handle.(index := w.handle.index[x := w.result.value],
                      pos := w.handle.pos + |FormatEntry(NewEntry(h, d, s, bytes))|),
                    Ok((x, true)))
  {
    hide HasStep, BeforeWrite, WritePack, FormatEntry;
  }

  lemma PutPacks(h: HashFn, d: Disk, s: Handle, bytes: Bytes, log: seq<IndexEntry>)
    requires DiskInv(h, d, log, []) && HandleInv(d, s, log)
    requires Packs(h, d, s, bytes)
    ensures var out, log' := PutStep(h, d, s, bytes), log + [NewEntry(h, d, s, bytes)];
      && out.result == Ok((h(bytes), true))
      && Holds(h, out.disk.packs, NewEntry(h, d, s, bytes), bytes)
      && DiskInv(h, out.disk, log', []) && HandleInv(out.disk, out.handle, log')
      && Grown(d, out.disk) && out.disk.refs == d.refs
  {
    hide BeforeWrite, WritePack, PutStep, HasStep, Render, InsertAll, FormatEntry, LogInv, Holds, RefsInv;
    var x, e := h(bytes), NewEntry(h, d, s, bytes);
    var s1 := BeforeWrite(d, s, x);
    var log' := log + [e];
    PutShape(h, d, s, bytes);
    PackedDisk(h, d, s, bytes, log);
    BeforeWriteKeeps(h, d, s, log, [], x);
    WritePackEffect(d, s1, bytes);
    RenderSnoc(log, e);
    EmptyTail(Render(log));
    EmptyTail(Render(log'));
    var out := PutStep(h, d, s, bytes);
    LogInvSameDisk(h, WritePack(d, s1, bytes).disk, out.disk, log');
    assert log'[..|log'|] == log';
    assert InSync(out.handle, log', |log'|);
    InsertKeys(log', map[]);
    SameRefs(Whole(d.refs), s1, out.handle);
  }

  /** A write, finished or not, moves only the handle's idea of the current pack. */
  lemma WriteKeepsHandle(d: Disk, s: Handle, bytes: Bytes, log: seq<IndexEntry>)
    requires HandleInv(d, s, log)
    ensures HandleInv(WritePack(d, s, bytes).disk, WritePack(d, s, bytes).handle, log)
  {
    hide WritePack, Render, InsertAll, RefsInv, Grown;
    WritePackEffect(d, s, bytes);
    var w := WritePack(d, s, bytes);
    var k: nat :| InSync(s, log, k);
    assert InSync(w.handle, log, k);
    SameRefs(Whole(d.refs), s, w.handle);
  }

  lemma LogInvSameDisk(h: HashFn, d: Disk, d': Disk, log: seq<IndexEntry>)
    requires LogInv(h, d, log) && d'.packs == d.packs && d'.objects == d.objects
    ensures LogInv(h, d', log)
  {
    hide Held;
  }

  lemma PutSkips(h: HashFn, d: Disk, s: Handle, bytes: Bytes, log: seq<IndexEntry>, torn: Bytes)
    requires DiskInv(h, d, log, torn) && HandleInv(d, s, log)
    requires !Packs(h, d, s, bytes)
    ensures var out := PutStep(h, d, s, bytes);
      && DiskInv(h, out.disk, log, torn) && HandleInv(out.disk, out.handle, log)
      && Grown(d, out.disk) && out.disk.refs == d.refs
      && (out.result.Ok? ==> out.result == Ok((h(bytes), false)) && out.disk == d)
  {
    hide BeforeWrite, WritePack, PutStep, HasStep, Render, InsertAll, LogInv, FormatEntry, RefsInv;
    var x := h(bytes);
    var s1 := BeforeWrite(d, s, x);
    PutShape(h, d, s, bytes);
    HasKeeps(h, d, s, log, torn, x);
    BeforeWriteKeeps(h, d, s, log, torn, x);
    if !Duplicate(d, s, x) {
      WritePackEffect(d, s1, bytes);
      var w := WritePack(d, s1, bytes);
      LogInvGrows(h, d, w.disk, log);
      WriteKeepsHandle(d, s1, bytes, log);
    }
  }

  /** `put` of any chunk keeps the invariant of the directory and of the handle, and grows the log
      by at most the one chunk it packed, which was unknown before. */
  lemma PutKeeps(h: HashFn, d: Disk, s: Handle, bytes: Bytes, log: seq<IndexEntry>)
    requires DiskInv(h, d, log, []) && HandleInv(d, s, log)
    ensures var out, log' := PutStep(h, d, s, bytes), LogAfterPut(h, d, s, bytes, log);
      && DiskInv(h, out.disk, log', []) && HandleInv(out.disk, out.handle, log')
      && Grown(d, out.disk) && out.disk.refs == d.refs && log <= log'
      && RefKeys(References(Whole(d.refs))) * LogKeys(log') <= LogKeys(log)
  {
    hide PutStep, DiskInv, HandleInv, Grown, Whole;
    if Packs(h, d, s, bytes) {
      PutPacks(h, d, s, bytes, log);
      NotDuplicate(h, d, s, h(bytes), log, []);
      LogKeysSnoc(log, NewEntry(h, d, s, bytes));
    } else {
      PutSkips(h, d, s, bytes, log, []);
    }
  }

  // ---- the other steps ----

  lemma CompleteIsRendered(log: seq<IndexEntry>, torn: Bytes)
    requires NEWLINE !in torn
    ensures (Render(log) + torn)[..CompleteLength(Render(log) + torn)] == Render(log)
  {
    hide Render, CompleteLength;
    CompleteOfTorn(log, torn);
    assert (Render(log) + torn)[..|Render(log)|] == Render(log);
  }

  lemma OpenKeeps(h: HashFn, d: Disk, d': Disk, s: Handle, log: seq<IndexEntry>, torn: Bytes)
    requires DiskInv(h, d, log, torn) && Opened(d, d', s)
    ensures DiskInv(h, d', log, []) && HandleInv(d', s, log) && Grown(d, d')
    ensures InSync(s, log, |log|)
    ensures Whole(d'.refs) == Whole(d.refs)
  {
    hide Render, InsertAll, Entries, CompleteLength, InsertRefs, References, RefsInv;
    CompleteIsRendered(log, torn);
    EmptyTail(Render(log));
    PackGrows(d.packs, s.currentId, PackBytes(d, s.currentId), []);
    LogAllRepresentable(h, d, log);
    LogInvGrows(h, d, d', log);
    EntriesOfRendered(log);
    InsertKeys(log, map[]);
    assert log[..|log|] == log;
    assert InSync(s, log, |log|);
    OpenedRefs(d, d', s);
  }

  lemma OpenedRefs(d: Disk, d': Disk, s: Handle)
    requires Opened(d, d', s)
    ensures RefsInv(Whole(d'.refs), s)
    ensures Whole(d'.refs) == Whole(d.refs)
  {
    hide InsertRefs, References, CompleteLength, InsertAll, Entries, HighestPack;
    CompleteIsWhole(d.refs);
    CompleteIsWhole(d'.refs);
    InsertRefsKeys(References(d'.refs), map[]);
    assert d'.refs[..|d'.refs|] == d'.refs;
  }

  lemma GetKeeps(h: HashFn, d: Disk, s: Handle, sources: Sources, x: Digest, log: seq<IndexEntry>, torn: Bytes)
    requires DiskInv(h, d, log, torn) && HandleInv(d, s, log)
    ensures HandleInv(d, GetStep(h, d, s, sources, x).1, log)
  {
    RefreshReaches(h, d, s, log, torn);
    hide RefreshIndex, HandleInv, ReadIndexed, ReadReference;
  }

  /** Whatever the state of directory, handle and source files, `get` never returns bytes that do
      not hash to the key. */
  lemma GetIsGenuine(h: HashFn, d: Disk, s: Handle, sources: Sources, x: Digest, bytes: Bytes)
    requires GetStep(h, d, s, sources, x).0 == Ok(Some(bytes))
    ensures h(bytes) == x
  {
    hide RefreshIndex;
  }

  lemma ReferKeeps(h: HashFn, d: Disk, s: Handle, r: Reference, log: seq<IndexEntry>, torn: Bytes)
    requires DiskInv(h, d, log, torn) && HandleInv(d, s, log) && Referable(r) && WholeLines(d.refs)
    ensures var (d', s') := ReferStep(d, s, r);
      && DiskInv(h, d', log, torn) && HandleInv(d', s', log) && Grown(d, d')
      && Whole(d.refs) <= Whole(d'.refs)
  {
    hide Render, InsertAll, HasStep, LogInv, RefsInv, FormatRef, Whole;
    var (d', s') := ReferStep(d, s, r);
    var s1 := HasStep(d, s, r.hash).1;
    HasKeeps(h, d, s, log, torn, r.hash);
    LogInvSameDisk(h, d, d', log);
    NoObjects(h, d, log);
    HasKeepsRefs(d, s, r.hash);
    var k: nat :| InSync(s1, log, k);
    assert InSync(s', log, k);
    CompleteIsWhole(d.refs);
    ReferredRefs(d.refs, s1, r);
    CompleteIsWhole(d'.refs);
  }

  /** The added line is whole and names its chunk, whatever its path. */
  lemma ReferredRefs(text: Bytes, s: Handle, r: Reference)
    requires RefsInv(text, s) && Referable(r)
    ensures RefsInv(text + FormatRef(r), s.(refs := s.refs[r.hash := r.loc]))
    ensures WholeLines(text + FormatRef(r))
  {
    hide References, RefText;
    AddedReference(r);
    var more := References(FormatRef(r));
    assert more[0].hash == r.hash;
    ReferencesAppend(text, FormatRef(r));
    RefKeysAppend(References(text), more);
    assert (text + FormatRef(r))[..s.refsPos] == text[..s.refsPos];
  }

  lemma HasKeepsRefs(d: Disk, s: Handle, x: Digest)
    ensures HasStep(d, s, x).1.refs == s.refs
    ensures x in s.refs && x in s.index ==> HasStep(d, s, x).1 == s
  {
  }

  lemma NoObjects(h: HashFn, d: Disk, log: seq<IndexEntry>)
    requires LogInv(h, d, log)
    ensures LogKeys(log) !! d.objects.Keys
  {
  }

  /** After a crash inside `put` the index spells either the old log and a torn line, or the log
      with the one new entry. */
  lemma CrashKeeps(h: HashFn, d: Disk, s: Handle, bytes: Bytes, d': Disk, log: seq<IndexEntry>)
    returns (log': seq<IndexEntry>, torn: Bytes)
    requires DiskInv(h, d, log, []) && HandleInv(d, s, log)
    requires TornPut(h, d, s, bytes, d')
    ensures DiskInv(h, d', log', torn) && Grown(d, d')
    ensures Packs(h, d, s, bytes)
    ensures log' == log || Adds(h, d, s, bytes, d', log, log')
    ensures d'.refs == d.refs && RefKeys(References(Whole(d.refs))) * LogKeys(log') <= LogKeys(log)
  {
    hide Render, InsertAll, BeforeWrite, Duplicate, WritePack, LogInv, Holds, RefsInv, LogKeys, RefKeys, References;
    var x := h(bytes);
    var s1 := BeforeWrite(d, s, x);
    BeforeWriteKeeps(h, d, s, log, [], x);
    var e := NewEntry(h, d, s, bytes);
    EmptyTail(Render(log));
    NotDuplicate(h, d, s, x, log, []);
    LogKeysSnoc(log, e);
    if n: nat :| n <= |bytes| && d' == WritePack(d, s1, bytes[..n]).disk {
      WritePackEffect(d, s1, bytes[..n]);
      LogInvGrows(h, d, d', log);
      return log, [];
    } else {
      var line := FormatEntry(e);
      var w := WritePack(d, s1, bytes).disk;
      var n: nat :| n <= |line| && d' == w.(index := w.index + line[..n]);
      PackedDisk(h, d, s, bytes, log);
      WritePackEffect(d, s1, bytes);
      if n == |line| {
        assert line[..n] == line;
        RenderSnoc(log, e);
        EmptyTail(Render(log + [e]));
        LogInvSameDisk(h, w, d', log + [e]);
        return log + [e], [];
      } else {
        EntryTextIsOneLine(e);
        hide EntryText;
        assert line[..n] == EntryText(e)[..n];
        LogInvGrows(h, d, d', log);
        return log, line[..n];
      }
    }
  }

  /** How many lines lie wholly within the first `n` bytes of the index. */
  ghost function LinesWithin(log: seq<IndexEntry>, n: nat): (k: nat)
    ensures k <= |log|
  {
    if |Render(log)| <= n || log == [] then |log| else LinesWithin(log[..|log| - 1], n)
  }

  /** Any beginning of an index spells the lines wholly within it, and a torn one. */
  lemma {:induction false} BeginningOfIndex(log: seq<IndexEntry>, n: nat) returns (torn: Bytes)
    requires n <= |Render(log)|
    ensures NEWLINE !in torn
    ensures Render(log)[..n] == Render(log[..LinesWithin(log, n)]) + torn
  {
    hide FormatEntry;
    if n == |Render(log)| {
      torn := [];
      assert log[..|log|] == log;
      EmptyTail(Render(log));
      assert Render(log)[..n] == Render(log);
    } else {
      var before, last := log[..|log| - 1], log[|log| - 1];
      if n <= |Render(before)| {
        torn := BeginningOfIndex(before, n);
        assert Render(log)[..n] == Render(before)[..n];
        assert before[..LinesWithin(before, n)] == log[..LinesWithin(before, n)];
      } else {
        var m := n - |Render(before)|;
        torn := FormatEntry(last)[..m];
        assert Render(log)[..n] == Render(before) + torn;
        assert LinesWithin(log, n) == |before|;
        CutLine(last, m);
      }
    }
  }

  lemma CutLine(e: IndexEntry, n: nat)
    requires n < |FormatEntry(e)|
    ensures NEWLINE !in FormatEntry(e)[..n]
  {
    EntryTextIsOneLine(e);
    hide EntryText;
    assert FormatEntry(e)[..n] == EntryText(e)[..n];
  }

  lemma LogInvPrefix(h: HashFn, d: Disk, log: seq<IndexEntry>, k: nat)
    requires LogInv(h, d, log) && k <= |log|
    ensures LogInv(h, d, log[..k])
  {
    hide Held, Apart;
  }

  /** A crash inside the trim of `open` keeps the directory well formed, and keeps exactly the
      entries whose lines had been written again. */
  lemma TrimKeeps(h: HashFn, d: Disk, d': Disk, log: seq<IndexEntry>, torn: Bytes) returns (torn': Bytes)
    requires DiskInv(h, d, log, torn) && TornTrim(d, d')
    ensures DiskInv(h, d', log[..LinesWithin(log, |d'.index|)], torn') && Grown(d, d')
    ensures d'.index <= d.index && |d'.index| <= |Render(log)|
  {
    hide Render, CompleteLength, LogInv, LinesWithin;
    CompleteOfTorn(log, torn);
    var n := |d'.index|;
    assert d'.index == Render(log)[..n];
    torn' := BeginningOfIndex(log, n);
    LogInvPrefix(h, d, log, LinesWithin(log, n));
    LogInvSameDisk(h, d, d', log[..LinesWithin(log, n)]);
  }

  // ---- one step of the system ----

  /** The handles not taking part keep their invariant while the directory grows around them. */
  lemma OthersKeep(h: HashFn, a: System, d': Disk, log: seq<IndexEntry>, torn: Bytes, log': seq<IndexEntry>, id: nat)
    requires SystemInv(h, a, log, torn) && id in a.handles
    requires Grown(a.disk, d') && log <= log'
    requires RefKeys(References(Whole(a.disk.refs))) * LogKeys(log') <= LogKeys(log)
    requires Whole(a.disk.refs) <= Whole(d'.refs)
    ensures HandleInv(d', a.handles[id], log')
  {
    hide LogInv, Render, Grown, InSync, References, Whole;
    assert HandleInv(a.disk, a.handles[id], log);
    HandleInvGrows(a.disk, d', a.handles[id], log, log');
  }

  lemma UpdateKeeps(h: HashFn, a: System, id: nat, d': Disk, s': Handle,
                    log: seq<IndexEntry>, torn: Bytes, log': seq<IndexEntry>)
    requires SystemInv(h, a, log, torn)
    requires DiskInv(h, d', log', torn) && HandleInv(d', s', log')
    requires Grown(a.disk, d') && log <= log'
    requires RefKeys(References(Whole(a.disk.refs))) * LogKeys(log') <= LogKeys(log)
    requires Whole(a.disk.refs) <= Whole(d'.refs)
    ensures SystemInv(h, System(d', a.handles[id := s']), log', torn)
  {
    hide HandleInv, DiskInv, Grown, Whole;
    var b := System(d', a.handles[id := s']);
    forall j | j in b.handles
      ensures HandleInv(b.disk, b.handles[j], log')
    {
      if j != id {
        OthersKeep(h, a, d', log, torn, log', j);
      }
    }
  }

  /** Survivors of a crash keep their invariant, a torn line or not. */
  lemma SurvivorsKeep(h: HashFn, a: System, b: System, log: seq<IndexEntry>,
                      torn: Bytes, log': seq<IndexEntry>, torn': Bytes)
    requires SystemInv(h, a, log, torn) && DiskInv(h, b.disk, log', torn')
    requires forall j :: j in b.handles ==> j in a.handles && b.handles[j] == a.handles[j]
    requires Grown(a.disk, b.disk) && log <= log'
    requires RefKeys(References(Whole(a.disk.refs))) * LogKeys(log') <= LogKeys(log)
    requires Whole(a.disk.refs) <= Whole(b.disk.refs)
    ensures SystemInv(h, b, log', torn')
  {
    hide HandleInv, DiskInv, Grown, Whole;
    forall j | j in b.handles
      ensures HandleInv(b.disk, b.handles[j], log')
    {
      OthersKeep(h, a, b.disk, log, torn, log', j);
    }
  }

  lemma GrownSelf(d: Disk)
    ensures Grown(d, d)
  {
  }

  /** The log grows by the entry of this chunk, and the packs hold it. */
  ghost predicate Adds(h: HashFn, d: Disk, s: Handle, bytes: Bytes, d': Disk,
                      log: seq<IndexEntry>, log': seq<IndexEntry>)
    requires Packs(h, d, s, bytes)
  {
    log' == log + [NewEntry(h, d, s, bytes)] && Holds(h, d'.packs, NewEntry(h, d, s, bytes), bytes)
  }

  /** What a step does to the log: only `put`, finished or cut off, adds to it, and exactly its own
      entry; only a crash inside the trim takes from it. */
  ghost predicate LogStep(h: HashFn, a: System, act: Action, b: System, log: seq<IndexEntry>, log': seq<IndexEntry>) {
    match act
    case Put(id, bytes) =>
      id in a.handles && if Packs(h, a.disk, a.handles[id], bytes)
        then Adds(h, a.disk, a.handles[id], bytes, b.disk, log, log') else log' == log
    case Crash(id, bytes) =>
      log' == log || (id in a.handles && Packs(h, a.disk, a.handles[id], bytes)
        && Adds(h, a.disk, a.handles[id], bytes, b.disk, log, log'))
    case CrashTrimming => log' == log[..LinesWithin(log, |b.disk.index|)]
    case _ => log' == log
  }

  lemma UntornIffWhole(h: HashFn, d: Disk, log: seq<IndexEntry>, torn: Bytes)
    requires DiskInv(h, d, log, torn)
    ensures WholeLines(d.index) <==> torn == []
  {
    hide Render, LogInv;
    if torn == [] {
      EmptyTail(Render(log));
      CompleteOfTorn(log, []);
      CompleteIsWhole(d.index);
    } else {
      assert d.index[|d.index| - 1] == torn[|torn| - 1];
    }
  }

  /** Every orderly step keeps the invariant of the whole system. */
  lemma StepKeeps(h: HashFn, a: System, act: Action, b: System, log: seq<IndexEntry>, torn: Bytes)
    returns (log': seq<IndexEntry>, torn': Bytes)
    requires SystemInv(h, a, log, torn) && Step(h, a, act, b) && Orderly(h, a, act, b)
    ensures SystemInv(h, b, log', torn') && Grown(a.disk, b.disk) && LogStep(h, a, act, b, log, log')
  {
    hide HandleInv, DiskInv, Grown, PutStep, HasStep, GetStep, ReferStep, TornPut, TornRefer, TornTrim, Opened,
      NewEntry,
      Packs, Holds, LinesWithin, Whole, WholeLines;
    GrownSelf(a.disk);
    UntornIffWhole(h, a.disk, log, torn);
    log', torn' := log, torn;
    match act
    case Open(id) =>
      torn' := OpenStepKeeps(h, a, id, b, log, torn);
    case Close(id) =>
    case Put(id, bytes) =>
      log' := PutStepKeeps(h, a, id, bytes, log, torn);
    case Has(id, x) =>
      HasKeeps(h, a.disk, a.handles[id], log, torn, x);
      UpdateKeeps(h, a, id, b.disk, HasStep(a.disk, a.handles[id], x).1, log, torn, log);
    case Get(id, x, sources) =>
      GetKeeps(h, a.disk, a.handles[id], sources, x, log, torn);
      UpdateKeeps(h, a, id, b.disk, GetStep(h, a.disk, a.handles[id], sources, x).1, log, torn, log);
    case Refer(id, r) =>
      ReferKeeps(h, a.disk, a.handles[id], r, log, torn);
      UpdateKeeps(h, a, id, b.disk, ReferStep(a.disk, a.handles[id], r).1, log, torn, log);
    case Crash(id, bytes) =>
      if b.disk != a.disk {
        log', torn' := CrashKeeps(h, a.disk, a.handles[id], bytes, b.disk, log);
        SurvivorsKeep(h, a, b, log, torn, log', torn');
      }
    case CrashReferring(id, r) =>
      TornReferKeeps(h, a.disk, r, b.disk, log, torn);
      SurvivorsKeep(h, a, b, log, torn, log, torn);
    case CrashTrimming =>
      torn' := TrimKeeps(h, a.disk, b.disk, log, torn);
      log' := log[..LinesWithin(log, |b.disk.index|)];
  }

  lemma PutStepKeeps(h: HashFn, a: System, id: nat, bytes: Bytes, log: seq<IndexEntry>,
                     torn: Bytes) returns (log': seq<IndexEntry>)
    requires SystemInv(h, a, log, torn) && id in a.handles
    requires Packs(h, a.disk, a.handles[id], bytes) ==> torn == []
    ensures var out := PutStep(h, a.disk, a.handles[id], bytes);
      var b := System(out.disk, a.handles[id := out.handle]);
      SystemInv(h, b, log', torn) && Grown(a.disk, b.disk) && LogStep(h, a, Put(id, bytes), b, log, log')
  {
    hide HandleInv, DiskInv, Grown, PutStep, NewEntry, Packs, Holds, Whole;
    var s := a.handles[id];
    var out := PutStep(h, a.disk, s, bytes);
    if Packs(h, a.disk, s, bytes) {
      PutKeeps(h, a.disk, s, bytes, log);
      PutPacks(h, a.disk, s, bytes, log);
      log' := LogAfterPut(h, a.disk, s, bytes, log);
    } else {
      PutSkips(h, a.disk, s, bytes, log, torn);
      log' := log;
    }
    UpdateKeeps(h, a, id, out.disk, out.handle, log, torn, log');
  }

  lemma TornReferKeeps(h: HashFn, d: Disk, r: Reference, d': Disk, log: seq<IndexEntry>, torn: Bytes)
    requires DiskInv(h, d, log, torn) && TornRefer(d, r, d') && WholeLines(d.refs)
    ensures DiskInv(h, d', log, torn) && Grown(d, d') && Whole(d.refs) <= Whole(d'.refs)
  {
    hide Render, LogInv, FormatRef, CompleteLength;
    LogInvSameDisk(h, d, d', log);
    WholeGrows(d.refs, d'.refs);
  }

  lemma WholeGrows(text: Bytes, text': Bytes)
    requires WholeLines(text) && text <= text'
    ensures Whole(text) <= Whole(text')
  {
    hide CompleteLength;
    CompleteIsWhole(text);
  }

  lemma OpenStepKeeps(h: HashFn, a: System, id: nat, b: System, log: seq<IndexEntry>,
                      torn: Bytes) returns (torn': Bytes)
    requires SystemInv(h, a, log, torn) && Step(h, a, Open(id), b)
    ensures SystemInv(h, b, log, torn') && torn' == [] && Grown(a.disk, b.disk)
  {
    hide HandleInv, DiskInv, Grown, Opened, Whole;
    torn' := [];
    var s :| Opened(a.disk, b.disk, s) && b.handles == a.handles[id := s];
    OpenKeeps(h, a.disk, b.disk, s, log, torn);
    forall j | j in b.handles
      ensures HandleInv(b.disk, b.handles[j], log)
    {
      if j != id {
        OthersKeep(h, a, b.disk, log, torn, log, j);
      }
    }
  }
}
