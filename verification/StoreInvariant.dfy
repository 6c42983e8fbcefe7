/** The invariant of the shared store directory, and that every step keeps it. */
module StoreInvariant {
  import opened Basics
  import opened Text
  import opened IndexLog
  import opened RefLog
  import opened StoreSpec

  ghost function LogKeys(log: seq<IndexEntry>): set<Digest> { set i | 0 <= i < |log| :: log[i].hash }

  ghost function RefKeys(refs: seq<Reference>): set<Digest> { set i | 0 <= i < |refs| :: refs[i].hash }

  /** The entry names bytes that are there. */
  ghost predicate InBounds(packs: map<nat, Bytes>, e: IndexEntry) {
    Representable(e.loc) && e.loc.pack in packs && e.loc.offset + e.loc.length <= |packs[e.loc.pack]|
  }

  ghost function Region(packs: map<nat, Bytes>, e: IndexEntry): Bytes
    requires InBounds(packs, e)
  {
    packs[e.loc.pack][e.loc.offset..e.loc.offset + e.loc.length]
  }

  /** The bytes it names hash to its key, so that they can be read. */
  ghost predicate Sound(h: HashFn, packs: map<nat, Bytes>, e: IndexEntry) {
    InBounds(packs, e) && h(Region(packs, e)) == e.hash
  }

  /** The pack holds the whole chunk where the entry says it starts; the entry has the chunk's
      length only modulo 2^32. */
  ghost predicate Holds(h: HashFn, packs: map<nat, Bytes>, e: IndexEntry, bytes: Bytes) {
    && Representable(e.loc) && e.loc.pack in packs
    && h(bytes) == e.hash && e.loc.length == |bytes| % (U32_MAX + 1)
    && e.loc.offset + |bytes| <= |packs[e.loc.pack]|
    && packs[e.loc.pack][e.loc.offset..e.loc.offset + |bytes|] == bytes
  }

  ghost predicate Held(h: HashFn, packs: map<nat, Bytes>, e: IndexEntry) {
    exists bytes :: Holds(h, packs, e, bytes)
  }

  /** A held chunk can be read back whole if and only if its length fits the entry. */
  lemma HeldRegion(h: HashFn, packs: map<nat, Bytes>, e: IndexEntry, bytes: Bytes)
    requires Holds(h, packs, e, bytes)
    ensures InBounds(packs, e)
    ensures Region(packs, e) == bytes <==> |bytes| <= U32_MAX
    ensures |bytes| <= U32_MAX ==> Sound(h, packs, e)
  {
  }

  lemma HeldInBounds(h: HashFn, packs: map<nat, Bytes>, e: IndexEntry)
    requires Held(h, packs, e)
    ensures InBounds(packs, e)
  {
    var bytes :| Holds(h, packs, e, bytes);
    HeldRegion(h, packs, e, bytes);
  }

  /** An earlier and a later entry: different chunks, and the later lies behind the earlier. */
  ghost predicate Apart(e: IndexEntry, f: IndexEntry) {
    && e.hash != f.hash
    && (e.loc.pack == f.loc.pack ==> e.loc.offset + e.loc.length <= f.loc.offset)
  }

  ghost predicate LogInv(h: HashFn, d: Disk, log: seq<IndexEntry>) {
    && (forall i :: 0 <= i < |log| ==> Held(h, d.packs, log[i]))
    && (forall i, j :: 0 <= i < j < |log| ==> Apart(log[i], log[j]))
    && (forall i :: 0 <= i < |log| ==> log[i].hash !in d.objects)
  }

  /** The index file spells `log`, followed by a torn line. */
  ghost predicate DiskInv(h: HashFn, d: Disk, log: seq<IndexEntry>, torn: Bytes) {
    && d.index == Render(log) + torn
    && NEWLINE !in torn
    && LogInv(h, d, log)
    && SmallIds(d.packs)
  }

  ghost predicate SmallIds(packs: map<nat, Bytes>) {
    forall p :: p in packs ==> p <= U32_MAX
  }

  /** The handle has read exactly the first `k` entries. */
  ghost predicate InSync(s: Handle, log: seq<IndexEntry>, k: nat) {
    && k <= |log|
    && s.pos == |Render(log[..k])|
    && s.index == InsertAll(log[..k], map[])
  }

  ghost predicate HandleInv(d: Disk, s: Handle, log: seq<IndexEntry>) {
    && (exists k: nat :: InSync(s, log, k))
    && s.currentId in d.packs && s.currentId <= U32_MAX
    && RefsInv(Whole(d.refs), s)
    && s.refs.Keys * LogKeys(log) <= s.index.Keys
  }

  /** The handle knows every reference up to its cursor, and nothing that is not in the whole lines
      of the file. */
  ghost predicate RefsInv(text: Bytes, s: Handle) {
    && WholeLines(text)
    && s.refsPos <= |text| && WholeLines(text[..s.refsPos])
    && RefKeys(References(text[..s.refsPos])) <= s.refs.Keys <= RefKeys(References(text))
  }

  ghost predicate SystemInv(h: HashFn, a: System, log: seq<IndexEntry>, torn: Bytes) {
    && DiskInv(h, a.disk, log, torn)
    && forall id :: id in a.handles ==> HandleInv(a.disk, a.handles[id], log)
  }

  // ---- maps and logs ----

  lemma {:induction false} InsertKeys(log: seq<IndexEntry>, index: Index)
    ensures InsertAll(log, index).Keys == index.Keys + LogKeys(log)
  {
    if log != [] {
      InsertKeys(log[1..], index[log[0].hash := log[0].loc]);
      LogKeysCons(log);
    }
  }

  lemma LogKeysCons(log: seq<IndexEntry>)
    requires log != []
    ensures LogKeys(log) == {log[0].hash} + LogKeys(log[1..])
  {
    forall x | x in LogKeys(log)
      ensures x in {log[0].hash} + LogKeys(log[1..])
    {
      var i :| 0 <= i < |log| && log[i].hash == x;
      assert i == 0 || log[1..][i - 1].hash == x;
    }
    forall x | x in LogKeys(log[1..])
      ensures x in LogKeys(log)
    {
      var i :| 0 <= i < |log[1..]| && log[1..][i].hash == x;
      assert log[i + 1].hash == x;
    }
  }

  lemma LogKeysSnoc(log: seq<IndexEntry>, e: IndexEntry)
    ensures LogKeys(log + [e]) == LogKeys(log) + {e.hash}
  {
    var all := log + [e];
    assert all[|log|] == e;
    assert forall i :: 0 <= i < |log| ==> all[i] == log[i];
    forall x | x in LogKeys(log)
      ensures x in LogKeys(all)
    {
      var i :| 0 <= i < |log| && log[i].hash == x;
      assert all[i].hash == x;
    }
  }

  lemma {:induction false} InsertRefsKeys(refs: seq<Reference>, known: map<Digest, RefLoc>)
    ensures InsertRefs(refs, known).Keys == known.Keys + RefKeys(refs)
  {
    if refs != [] {
      InsertRefsKeys(refs[1..], known[refs[0].hash := refs[0].loc]);
      assert refs == [refs[0]] + refs[1..];
      RefKeysAppend([refs[0]], refs[1..]);
      assert RefKeys([refs[0]]) == {refs[0].hash} by { assert [refs[0]][0] == refs[0]; }
    }
  }

  lemma RefKeysAppend(a: seq<Reference>, b: seq<Reference>)
    ensures RefKeys(a + b) == RefKeys(a) + RefKeys(b)
  {
    var all := a + b;
    forall x | x in RefKeys(a)
      ensures x in RefKeys(all)
    {
      var i :| 0 <= i < |a| && a[i].hash == x;
      assert all[i].hash == x;
    }
    forall x | x in RefKeys(b)
      ensures x in RefKeys(all)
    {
      var i :| 0 <= i < |b| && b[i].hash == x;
      assert all[|a| + i].hash == x;
    }
  }

  lemma LogAllRepresentable(h: HashFn, d: Disk, log: seq<IndexEntry>)
    requires LogInv(h, d, log)
    ensures AllRepresentable(log)
  {
    forall i | 0 <= i < |log|
      ensures Representable(log[i].loc)
    {
      HeldInBounds(h, d.packs, log[i]);
    }
  }

  // ---- refreshing ----

  lemma TailOfIndex(log: seq<IndexEntry>, k: nat)
    requires k <= |log|
    ensures |Render(log[..k])| <= |Render(log)|
    ensures Render(log)[|Render(log[..k])|..] == Render(log[k..])
    ensures k < |log| ==> |Render(log[..k])| < |Render(log)|
  {
    assert log == log[..k] + log[k..];
    RenderAppend(log[..k], log[k..]);
    if k < |log| {
      RenderEndsLine(log[k..]);
    }
    hide Render;
  }

  /** Refreshing brings any handle, however far behind, to the end of the whole lines. */
  lemma RefreshFrom(d: Disk, s: Handle, log: seq<IndexEntry>, torn: Bytes, k: nat)
    requires d.index == Render(log) + torn && NEWLINE !in torn && AllRepresentable(log) && InSync(s, log, k)
    ensures RefreshIndex(d, s) == s.(index := InsertAll(log, map[]), pos := |Render(log)|)
  {
    hide Render, InsertAll, Entries, CompleteLength;
    TailOfIndex(log, k);
    CompleteOfTorn(log, torn);
    assert d.index[..|Render(log)|] == Render(log);
    var rest := log[k..];
    assert log == log[..k] + rest;
    InsertAppend(log[..k], rest, map[]);
    EntriesOfRendered(rest);
    CompleteOfTail(d.index, s.pos);
    WholeTail(d.index, s.pos);
    if |d.index| <= s.pos {
      assert rest == [];
      NothingInserted(InsertAll(log[..k], map[]));
    }
  }

  lemma NothingInserted(index: Index)
    ensures InsertAll([], index) == index
  {
  }

  lemma RefreshReaches(h: HashFn, d: Disk, s: Handle, log: seq<IndexEntry>, torn: Bytes)
    requires DiskInv(h, d, log, torn) && HandleInv(d, s, log)
    ensures RefreshIndex(d, s) == s.(index := InsertAll(log, map[]), pos := |Render(log)|)
    ensures InSync(RefreshIndex(d, s), log, |log|)
    ensures HandleInv(d, RefreshIndex(d, s), log)
  {
    hide Render, InsertAll, RefreshIndex, RefsInv;
    var k: nat :| InSync(s, log, k);
    LogAllRepresentable(h, d, log);
    RefreshFrom(d, s, log, torn, k);
    InsertKeys(log, map[]);
    assert log[..|log|] == log;
    SameRefs(Whole(d.refs), s, RefreshIndex(d, s));
  }

  lemma SameRefs(text: Bytes, s: Handle, s': Handle)
    requires RefsInv(text, s) && s'.refs == s.refs && s'.refsPos == s.refsPos
    ensures RefsInv(text, s')
  {
  }

  lemma HasKeeps(h: HashFn, d: Disk, s: Handle, log: seq<IndexEntry>, torn: Bytes, x: Digest)
    requires DiskInv(h, d, log, torn) && HandleInv(d, s, log)
    ensures HandleInv(d, HasStep(d, s, x).1, log)
    ensures x in LogKeys(log) && x !in d.objects && x !in s.refs ==> x in HasStep(d, s, x).1.index
    ensures HasStep(d, s, x).0 <==> x in LogKeys(log) || x in d.objects || x in s.refs
  {
    RefreshReaches(h, d, s, log, torn);
    InsertKeys(log, map[]);
    IndexWithinLog(d, s, log);
    hide RefreshIndex, HandleInv;
  }

  lemma IndexWithinLog(d: Disk, s: Handle, log: seq<IndexEntry>)
    requires HandleInv(d, s, log)
    ensures s.index.Keys <= LogKeys(log)
  {
    var k: nat :| InSync(s, log, k);
    InsertKeys(log[..k], map[]);
    forall x | x in LogKeys(log[..k])
      ensures x in LogKeys(log)
    {
      var i :| 0 <= i < k && log[..k][i].hash == x;
      assert log[i].hash == x;
    }
  }

  // ---- growth ----

  /** Packs only get longer at the end, objects stay. */
  ghost predicate Grown(d: Disk, d': Disk) {
    && (forall p :: p in d.packs ==> p in d'.packs && d.packs[p] <= d'.packs[p])
    && d'.objects == d.objects
  }

  lemma SliceOfPrefix<T>(a: seq<T>, b: seq<T>, i: nat, j: nat)
    requires a <= b && i <= j <= |a|
    ensures b[i..j] == a[i..j]
  {
    assert b[..|a|] == a;
  }

  lemma HoldsGrows(h: HashFn, packs: map<nat, Bytes>, packs': map<nat, Bytes>, e: IndexEntry, bytes: Bytes)
    requires Holds(h, packs, e, bytes)
    requires e.loc.pack in packs' && packs[e.loc.pack] <= packs'[e.loc.pack]
    ensures Holds(h, packs', e, bytes)
  {
    SliceOfPrefix(packs[e.loc.pack], packs'[e.loc.pack], e.loc.offset, e.loc.offset + |bytes|);
  }

  lemma RegionGrows(packs: map<nat, Bytes>, packs': map<nat, Bytes>, e: IndexEntry)
    requires InBounds(packs, e)
    requires e.loc.pack in packs' && packs[e.loc.pack] <= packs'[e.loc.pack]
    ensures InBounds(packs', e) && Region(packs', e) == Region(packs, e)
  {
    SliceOfPrefix(packs[e.loc.pack], packs'[e.loc.pack], e.loc.offset, e.loc.offset + e.loc.length);
  }

  lemma LogInvGrows(h: HashFn, d: Disk, d': Disk, log: seq<IndexEntry>)
    requires LogInv(h, d, log) && Grown(d, d')
    ensures LogInv(h, d', log)
  {
    hide Holds;
    forall i | 0 <= i < |log|
      ensures Held(h, d'.packs, log[i])
    {
      var bytes :| Holds(h, d.packs, log[i], bytes);
      HeldInBounds(h, d.packs, log[i]);
      HoldsGrows(h, d.packs, d'.packs, log[i], bytes);
    }
  }

  lemma ReferencesGrow(text: Bytes, text': Bytes, s: Handle)
    requires RefsInv(text, s) && text <= text' && WholeLines(text')
    ensures RefsInv(text', s)
    ensures RefKeys(References(text)) <= RefKeys(References(text'))
  {
    hide References, RefKeys;
    var more := text'[|text|..];
    assert text' == text + more;
    ReferencesAppend(text, more);
    RefKeysAppend(References(text), References(more));
    assert text'[..s.refsPos] == text[..s.refsPos];
  }

  lemma HandleInvGrows(d: Disk, d': Disk, s: Handle, log: seq<IndexEntry>, log': seq<IndexEntry>)
    requires HandleInv(d, s, log) && Grown(d, d') && log <= log'
    requires Whole(d.refs) <= Whole(d'.refs)
    requires s.refs.Keys * LogKeys(log') <= LogKeys(log)
    ensures HandleInv(d', s, log')
  {
    hide Render, InsertAll, RefsInv, Whole, CompleteLength;
    var k: nat :| InSync(s, log, k);
    assert log'[..k] == log[..k];
    assert InSync(s, log', k);
    CompleteIsWhole(d'.refs);
    ReferencesGrow(Whole(d.refs), Whole(d'.refs), s);
  }

  // ---- writing ----

  lemma PackGrows(packs: map<nat, Bytes>, id: nat, end: Bytes, more: Bytes)
    requires end == if id in packs then packs[id] else []
    ensures forall p :: p in packs ==> p in packs[id := end + more] && packs[p] <= packs[id := end + more][p]
    ensures forall p :: p in packs ==> p in packs[id := end] && packs[p] <= packs[id := end][p]
  {
  }

  /** The pack a write goes to. */
  ghost function TargetPack(s: Handle): nat {
    if s.currentSize >= PACK_ROTATE_SIZE then s.currentId + 1 else s.currentId
  }

  /** Appending lands behind everything already in the pack, whatever size the handle believed. */
  lemma WritePackEffect(d: Disk, s: Handle, bytes: Bytes)
    requires s.currentId in d.packs && s.currentId <= U32_MAX
    ensures SmallIds(d.packs) ==> SmallIds(WritePack(d, s, bytes).disk.packs)
    ensures var w := WritePack(d, s, bytes);
      && Grown(d, w.disk) && w.disk.index == d.index && w.disk.refs == d.refs
      && w.handle == s.(currentId := w.handle.currentId, currentSize := w.handle.currentSize)
      && w.handle.currentId in w.disk.packs && w.handle.currentId <= U32_MAX
  {
    PackGrows(d.packs, TargetPack(s), PackBytes(d, TargetPack(s)), bytes);
  }

  lemma WrittenAt(d: Disk, s: Handle, bytes: Bytes)
    requires WritePack(d, s, bytes).result.Ok?
    ensures var w := WritePack(d, s, bytes);
      var loc := w.result.value;
      && loc.pack in w.disk.packs
      && loc.pack == w.handle.currentId
      && loc.offset == |PackBytes(d, loc.pack)|
      && loc.length == |bytes| % (U32_MAX + 1)
      && w.disk.packs[loc.pack] == PackBytes(d, loc.pack) + bytes
      && loc.offset + |bytes| <= U64_MAX
  {
  }

  lemma AppendedTail<T>(a: seq<T>, b: seq<T>)
    ensures (a + b)[|a|..|a| + |b|] == b
  {
  }

  lemma WrittenHeld(h: HashFn, d: Disk, s: Handle, bytes: Bytes)
    requires s.currentId in d.packs && s.currentId <= U32_MAX
    requires WritePack(d, s, bytes).result.Ok?
    ensures var w := WritePack(d, s, bytes);
      Holds(h, w.disk.packs, IndexEntry(h(bytes), w.result.value), bytes)
  {
    hide WritePack;
    WritePackEffect(d, s, bytes);
    WrittenAt(d, s, bytes);
    var loc := WritePack(d, s, bytes).result.value;
    AppendedTail(PackBytes(d, loc.pack), bytes);
  }

  lemma LogInvSnoc(h: HashFn, d: Disk, d': Disk, log: seq<IndexEntry>, e: IndexEntry)
    requires LogInv(h, d, log) && Grown(d, d')
    requires Held(h, d'.packs, e) && e.loc.offset == |PackBytes(d, e.loc.pack)|
    requires e.hash !in LogKeys(log) && e.hash !in d.objects
    ensures LogInv(h, d', log + [e])
  {
    hide Held;
    LogInvGrows(h, d, d', log);
    var log' := log + [e];
    forall i, j | 0 <= i < j < |log'|
      ensures Apart(log'[i], log'[j])
    {
      if j == |log| {
        HeldInBounds(h, d.packs, log[i]);
        assert log[i].hash in LogKeys(log);
      }
    }
  }

  lemma BeforeWriteKeeps(h: HashFn, d: Disk, s: Handle, log: seq<IndexEntry>, torn: Bytes, x: Digest)
    requires DiskInv(h, d, log, torn) && HandleInv(d, s, log)
    ensures var s1 := BeforeWrite(d, s, x);
      && HandleInv(d, s1, log)
      && s1.index == InsertAll(log, map[]) && s1.pos == |Render(log)|
      && s1.refs.Keys == RefKeys(References(Whole(d.refs)))
  {
    hide Render, InsertAll, RefreshIndex, InsertRefs, HasStep, RefsInv;
    HasKeeps(h, d, s, log, torn, x);
    var s0 := HasStep(d, s, x).1;
    RefreshReaches(h, d, s0, log, torn);
    InsertKeys(log, map[]);
    RefreshRefsKeeps(d, RefreshIndex(d, s0), log);
  }

  lemma RefreshRefsKeeps(d: Disk, s: Handle, log: seq<IndexEntry>)
    requires HandleInv(d, s, log) && LogKeys(log) <= s.index.Keys
    ensures var s1 := RefreshRefs(d, s);
      && HandleInv(d, s1, log)
      && s1.index == s.index && s1.pos == s.pos
      && s1.refs.Keys == RefKeys(References(Whole(d.refs)))
  {
    hide Render, InsertAll, InsertRefs, References, RefsInv, Whole;
    RefreshRefsReaches(d, s);
    var s1 := RefreshRefs(d, s);
    var k: nat :| InSync(s, log, k);
    assert InSync(s1, log, k);
  }

  /** Refreshing brings the references level with the whole lines of the file. */
  lemma RefreshRefsReaches(d: Disk, s: Handle)
    requires RefsInv(Whole(d.refs), s)
    ensures var s1, text := RefreshRefs(d, s), Whole(d.refs);
      && RefsInv(text, s1)
      && s1 == s.(refs := InsertRefs(References(text[s.refsPos..]), s.refs), refsPos := |text|)
      && s1.refs.Keys == RefKeys(References(text))
  {
    hide InsertRefs, References, RefKeys, CompleteLength;
    var text := Whole(d.refs);
    WholeTail(d.refs, s.refsPos);
    CompleteOfTail(d.refs, s.refsPos);
    RefsReached(text, s);
    if |d.refs| <= s.refsPos {
      assert text[s.refsPos..] == [];
      NoReferences(s.refs);
    }
  }

  lemma RefsReached(text: Bytes, s: Handle)
    requires RefsInv(text, s)
    ensures var refs := InsertRefs(References(text[s.refsPos..]), s.refs);
      && refs.Keys == RefKeys(References(text))
      && RefsInv(text, s.(refs := refs, refsPos := |text|))
  {
    hide InsertRefs, References, RefKeys;
    var tail := text[s.refsPos..];
    assert text == text[..s.refsPos] + tail;
    ReferencesAppend(text[..s.refsPos], tail);
    RefKeysAppend(References(text[..s.refsPos]), References(tail));
    InsertRefsKeys(References(tail), s.refs);
    assert text[..|text|] == text;
  }

  lemma NoReferences(known: map<Digest, RefLoc>)
    ensures InsertRefs(References([]), known) == known
  {
  }
}
