/** Ingesting files into a store and exporting them again: the end-to-end round trip. */
module Transfer {
  import opened Basics
  import opened IndexLog
  import opened RefLog
  import opened StoreSpec
  import opened StoreInvariant
  import opened StoreSteps
  import opened StoreTheorems
  import opened Reading
  import opened Manifests
  import opened ManifestTheorems
  import opened BuildTheorems

  datatype StoredOut = StoredOut(disk: Disk, handle: Handle, result: Result<(), StoreError>)

  /** Putting pieces one after the other, stopping at the first error. */
  function PutAll(h: HashFn, d: Disk, s: Handle, pieces: seq<Bytes>): StoredOut {
    if pieces == [] then StoredOut(d, s, Ok(()))
    else
      var o := PutAll(h, d, s, pieces[..|pieces| - 1]);
      if o.result.Err? then o
      else
        var p := PutStep(h, o.disk, o.handle, pieces[|pieces| - 1]);
        StoredOut(p.disk, p.handle, if p.result.Ok? then Ok(()) else Err(p.result.error))
  }

  // ---- what puts leave behind ----

  ghost predicate Stored(d: Disk, s: Handle, log: seq<IndexEntry>, x: Digest) {
    x in LogKeys(log) || x in d.objects || x in s.refs
  }

  ghost predicate AllStored(h: HashFn, d: Disk, s: Handle, log: seq<IndexEntry>, pieces: seq<Bytes>) {
    forall i :: 0 <= i < |pieces| ==> Stored(d, s, log, h(pieces[i]))
  }

  lemma PutRefs(h: HashFn, d: Disk, s: Handle, bytes: Bytes, log: seq<IndexEntry>)
    requires DiskInv(h, d, log, []) && HandleInv(d, s, log)
    ensures s.refs.Keys <= PutStep(h, d, s, bytes).handle.refs.Keys
  {
    var x := h(bytes);
    PutShape(h, d, s, bytes);
    BeforeWriteKeeps(h, d, s, log, [], x);
    HasKeepsRefs(d, s, x);
    WriteKeepsRefs(d, BeforeWrite(d, s, x), bytes);
    hide PutStep, HasStep, BeforeWrite, WritePack, FormatEntry;
  }

  lemma WriteKeepsRefs(d: Disk, s: Handle, bytes: Bytes)
    ensures WritePack(d, s, bytes).handle.refs == s.refs && WritePack(d, s, bytes).handle.refsPos == s.refsPos
  {
  }

  /** A successful `put` leaves the chunk known to the handle, one way or another. */
  lemma PutStores(h: HashFn, d: Disk, s: Handle, bytes: Bytes, log: seq<IndexEntry>)
    requires DiskInv(h, d, log, []) && HandleInv(d, s, log)
    requires PutStep(h, d, s, bytes).result.Ok?
    ensures var out := PutStep(h, d, s, bytes);
      Stored(out.disk, out.handle, LogAfterPut(h, d, s, bytes, log), h(bytes))
  {
    var x := h(bytes);
    PutShape(h, d, s, bytes);
    HasKeeps(h, d, s, log, [], x);
    HasKeepsRefs(d, s, x);
    BeforeWriteKeeps(h, d, s, log, [], x);
    InsertKeys(log, map[]);
    if Packs(h, d, s, bytes) {
      LogKeysSnoc(log, NewEntry(h, d, s, bytes));
    }
    hide PutStep, HasStep, BeforeWrite, WritePack, FormatEntry, InsertAll, LogKeys;
  }

  lemma {:induction false} PutAllKeeps(h: HashFn, d: Disk, s: Handle, pieces: seq<Bytes>, log: seq<IndexEntry>)
    returns (log': seq<IndexEntry>)
    requires DiskInv(h, d, log, []) && HandleInv(d, s, log)
    ensures var o := PutAll(h, d, s, pieces);
      && DiskInv(h, o.disk, log', []) && HandleInv(o.disk, o.handle, log')
      && (o.result.Ok? ==> AllStored(h, o.disk, o.handle, log', pieces))
      && (forall x :: Stored(d, s, log, x) ==> Stored(o.disk, o.handle, log', x))
  {
    hide DiskInv, HandleInv, PutStep, LogAfterPut, Stored;
    if pieces == [] {
      return log;
    }
    var n := |pieces| - 1;
    var l := PutAllKeeps(h, d, s, pieces[..n], log);
    var o := PutAll(h, d, s, pieces[..n]);
    if o.result.Err? {
      return l;
    }
    var last := pieces[n];
    log' := LogAfterPut(h, o.disk, o.handle, last, l);
    PutKeeps(h, o.disk, o.handle, last, l);
    var p := PutStep(h, o.disk, o.handle, last);
    forall x | Stored(d, s, log, x)
      ensures Stored(p.disk, p.handle, log', x)
    {
      StoredStays(h, o.disk, o.handle, last, l, x);
    }
    if p.result.Ok? {
      PutStores(h, o.disk, o.handle, last, l);
      forall i | 0 <= i < |pieces|
        ensures Stored(p.disk, p.handle, log', h(pieces[i]))
      {
        if i < n {
          assert Stored(o.disk, o.handle, l, h(pieces[..n][i]));
          StoredStays(h, o.disk, o.handle, last, l, h(pieces[i]));
        }
      }
    }
  }

  lemma StoredStays(h: HashFn, d: Disk, s: Handle, bytes: Bytes, log: seq<IndexEntry>, x: Digest)
    requires DiskInv(h, d, log, []) && HandleInv(d, s, log)
    requires Stored(d, s, log, x)
    ensures var out := PutStep(h, d, s, bytes);
      Stored(out.disk, out.handle, LogAfterPut(h, d, s, bytes, log), x)
  {
    hide DiskInv, HandleInv, PutStep, Packs;
    PutKeeps(h, d, s, bytes, log);
    PutRefs(h, d, s, bytes, log);
    if Packs(h, d, s, bytes) {
      LogKeysSnoc(log, NewEntry(h, d, s, bytes));
    }
  }

  // ---- when puts succeed ----

  /** Room for `count` more chunks of `size` bytes together. */
  ghost predicate Room(d: Disk, s: Handle, count: nat, size: nat) {
    && s.currentId + count <= U32_MAX
    && size <= U64_MAX
    && forall p :: p in d.packs ==> |d.packs[p]| + size <= U64_MAX
  }

  /** Exactly when `put` fails: the chunk is new, and the pack ids are used up or the pack would
      outgrow 64 bits. */
  lemma PutFailsIff(h: HashFn, d: Disk, s: Handle, bytes: Bytes)
    ensures PutStep(h, d, s, bytes).result.Err? <==>
      && !Duplicate(d, s, h(bytes))
      && ( || (s.currentSize >= PACK_ROTATE_SIZE && s.currentId >= U32_MAX)
           || |PackBytes(d, TargetPack(s))| + |bytes| > U64_MAX)
  {
    PutShape(h, d, s, bytes);
    KeepsCurrent(d, s, h(bytes));
    hide PutStep, HasStep, BeforeWrite, FormatEntry;
  }

  lemma PutUsesRoom(h: HashFn, d: Disk, s: Handle, bytes: Bytes, count: nat, size: nat)
    requires Room(d, s, count + 1, size + |bytes|)
    ensures var p := PutStep(h, d, s, bytes); p.result.Ok? && Room(p.disk, p.handle, count, size)
  {
    PutFailsIff(h, d, s, bytes);
    PutShape(h, d, s, bytes);
    KeepsCurrent(d, s, h(bytes));
    HasKeepsCurrent(d, s, h(bytes));
    hide PutStep, HasStep, BeforeWrite, FormatEntry;
  }

  lemma HasKeepsCurrent(d: Disk, s: Handle, x: Digest)
    ensures HasStep(d, s, x).1.currentId == s.currentId
  {
    hide InsertAll, Entries, CompleteLength;
  }

  lemma {:induction false} PutAllUsesRoom(h: HashFn, d: Disk, s: Handle, pieces: seq<Bytes>, count: nat, size: nat)
    requires Room(d, s, |pieces| + count, |Flatten(pieces)| + size)
    ensures var o := PutAll(h, d, s, pieces); o.result.Ok? && Room(o.disk, o.handle, count, size)
  {
    hide PutStep, Flatten;
    if pieces == [] {
      NothingLong();
    } else {
      var before, last := pieces[..|pieces| - 1], pieces[|pieces| - 1];
      assert pieces == before + [last];
      FlattenSnoc(before, last);
      PutAllUsesRoom(h, d, s, before, count + 1, size + |last|);
      hide Room;
      var o := PutAll(h, d, s, before);
      PutUsesRoom(h, o.disk, o.handle, last, count, size);
    }
  }

  lemma NothingLong()
    ensures |Flatten<Byte>([])| == 0
  {
  }

  /** Enough room before is all it takes for every put to succeed. */
  lemma RoomSuffices(h: HashFn, d: Disk, s: Handle, pieces: seq<Bytes>)
    requires Room(d, s, |pieces|, |Flatten(pieces)|)
    ensures PutAll(h, d, s, pieces).result.Ok?
  {
    PutAllUsesRoom(h, d, s, pieces, 0, 0);
  }

  // ---- reading it back ----

  /** Everything the store can hand out: packed regions, objects and referenced ranges. */
  ghost function Holdings(h: HashFn, d: Disk, s: Handle, sources: Sources, xs: set<Digest>): set<Bytes> {
    set x | x in xs && GetStep(h, d, s, sources, x).0.Ok? && GetStep(h, d, s, sources, x).0.value.Some? ::
      GetStep(h, d, s, sources, x).0.value.value
  }

  ghost function PieceHashes(h: HashFn, pieces: seq<Bytes>): set<Digest> {
    set i | 0 <= i < |pieces| :: h(pieces[i])
  }

  ghost function PieceSet(pieces: seq<Bytes>): set<Bytes> {
    set i | 0 <= i < |pieces| :: pieces[i]
  }

  /** Reading back a readable piece gives the piece, or it collides with what is held instead. */
  lemma PieceReadsBack(h: HashFn, d: Disk, s: Handle, sources: Sources, log: seq<IndexEntry>, torn: Bytes,
                      pieces: seq<Bytes>, i: nat)
    requires DiskInv(h, d, log, torn) && HandleInv(d, s, log)
    requires i < |pieces| && Readable(h, d, s, sources, h(pieces[i]))
    ensures StoreFetch(h, d, s, sources)(h(pieces[i])) == Some(pieces[i])
         || Collide(h, PieceSet(pieces), Holdings(h, d, s, sources, PieceHashes(h, pieces)))
  {
    hide GetStep, DiskInv, HandleInv, Readable;
    var x := h(pieces[i]);
    ReadsIff(h, d, s, sources, log, torn, x);
    var chunk :| GetStep(h, d, s, sources, x).0 == Ok(Some(chunk)) && h(chunk) == x;
    assert x in PieceHashes(h, pieces);
    assert chunk in Holdings(h, d, s, sources, PieceHashes(h, pieces));
    assert pieces[i] in PieceSet(pieces);
  }

  lemma AllPiecesReadBack(h: HashFn, m: Manifest, d: Disk, s: Handle, sources: Sources, log: seq<IndexEntry>,
                      torn: Bytes, pieces: seq<Bytes>)
    requires DiskInv(h, d, log, torn) && HandleInv(d, s, log) && AllReadable(h, d, s, sources, m)
    requires |m.chunks| == |pieces| && forall i :: 0 <= i < |pieces| ==> m.chunks[i].hash == h(pieces[i])
    ensures Supplies(h, m, StoreFetch(h, d, s, sources), pieces)
         || Collide(h, PieceSet(pieces), Holdings(h, d, s, sources, PieceHashes(h, pieces)))
  {
    hide DiskInv, HandleInv, Readable, StoreFetch, Collide;
    if !Collide(h, PieceSet(pieces), Holdings(h, d, s, sources, PieceHashes(h, pieces))) {
      forall i | 0 <= i < |pieces|
        ensures StoreFetch(h, d, s, sources)(m.chunks[i].hash) == Some(pieces[i])
      {
        assert Readable(h, d, s, sources, m.chunks[i].hash);
        PieceReadsBack(h, d, s, sources, log, torn, pieces, i);
      }
    }
  }

  /** Exporting a built manifest, from any state that meets the invariant: if every chunk is
      readable the result is exactly the files, or a chunk of theirs collides with the bytes held
      under its hash; if any is not, the export fails. */
  lemma BuiltExport(h: HashFn, cut: Chunker, files: seq<File>, name: Option<string>, d: Disk, s: Handle,
                    log: seq<IndexEntry>, torn: Bytes, sources: Sources)
    requires DiskInv(h, d, log, torn) && HandleInv(d, s, log)
    requires CutsTile(cut) && |Contents(files)| <= U64_MAX
    ensures var m, pieces := FromFiles(h, cut, files, name), PiecesOf(cut, files);
      var r := ReconstructFiles(h, m, StoreFetch(h, d, s, sources));
      && (AllReadable(h, d, s, sources, m) ==>
        r == Ok(files) || Collide(h, PieceSet(pieces), Holdings(h, d, s, sources, PieceHashes(h, pieces))))
      && (r.Ok? ==> AllReadable(h, d, s, sources, m))
  {
    hide DiskInv, HandleInv, AllReadable, StoreFetch, Collide, PiecesOf, Build, ReconstructFiles, Holdings, Validate;
    var m, pieces := FromFiles(h, cut, files, name), PiecesOf(cut, files);
    BuildMatches(h, cut, files);
    BuiltManifestValid(h, cut, files, name);
    ExportsTreeIff(h, m, d, s, log, torn, sources);
    if AllReadable(h, d, s, sources, m) {
      AllPiecesReadBack(h, m, d, s, sources, log, torn, pieces);
      if Supplies(h, m, StoreFetch(h, d, s, sources), pieces) {
        BuiltManifestRoundTrip(h, cut, files, name, StoreFetch(h, d, s, sources));
      }
    }
  }

  // ---- what an ingest will be able to read back, seen before it starts ----

  /** `put` learns new references only when it has not found the chunk without them. */
  lemma PutRefsExact(h: HashFn, d: Disk, s: Handle, bytes: Bytes)
    ensures var s' := PutStep(h, d, s, bytes).handle;
      var r := if HasStep(d, s, h(bytes)).0 then s else RefreshRefs(d, s);
      s'.refs == r.refs && s'.refsPos == r.refsPos
  {
    var x := h(bytes);
    PutShape(h, d, s, bytes);
    RefreshKeepsRefs(d, s, x);
    WriteKeepsRefs(d, BeforeWrite(d, s, x), bytes);
    hide PutStep, HasStep, BeforeWrite, WritePack, FormatEntry, RefreshRefs;
  }

  lemma RefreshKeepsRefs(d: Disk, s: Handle, x: Digest)
    ensures HasStep(d, s, x).1.refs == s.refs && HasStep(d, s, x).1.refsPos == s.refsPos
    ensures BeforeWrite(d, s, x).refs == RefreshRefs(d, s).refs
      && BeforeWrite(d, s, x).refsPos == RefreshRefs(d, s).refsPos
  {
    hide InsertRefs, References, InsertAll, Entries, CompleteLength;
  }

  /** The references the handle will know after ingesting `pieces`. */
  ghost function SeenRefs(h: HashFn, d: Disk, s: Handle, log: seq<IndexEntry>,
                      pieces: seq<Bytes>): (map<Digest, RefLoc>, nat) {
    if AllStored(h, d, s, log, pieces) then (s.refs, s.refsPos) else (RefreshRefs(d, s).refs, RefreshRefs(d, s).refsPos)
  }

  /** The first of the pieces with this hash: the one that is packed if none is known before. */
  ghost function FirstWith(h: HashFn, pieces: seq<Bytes>, x: Digest): Bytes
    requires x in PieceHashes(h, pieces)
  {
    var n := |pieces| - 1;
    if x in PieceHashes(h, pieces[..n]) then FirstWith(h, pieces[..n], x) else pieces[n]
  }

  /** What the 32-bit length leaves of the chunk still has its hash; all of it, below 4 GiB. */
  ghost predicate Fitting(h: HashFn, bytes: Bytes) {
    h(bytes[..|bytes| % (U32_MAX + 1)]) == h(bytes)
  }

  lemma SmallFits(h: HashFn, bytes: Bytes)
    requires |bytes| <= U32_MAX
    ensures Fitting(h, bytes)
  {
    assert bytes[..|bytes|] == bytes;
  }

  /** Where the chunk is already known to be it can be read, or it is new to the store and fits. */
  ghost predicate Welcome(h: HashFn, d: Disk, refs: map<Digest, RefLoc>, log: seq<IndexEntry>, sources: Sources,
                          pieces: seq<Bytes>, x: Digest)
  {
    if x in LogKeys(log) then exists e :: e in log && e.hash == x && Sound(h, d.packs, e)
    else if x in d.objects then h(d.objects[x]) == x
    else if x in refs then RefIntact(h, refs[x], sources, x)
    else x in PieceHashes(h, pieces) ==> Fitting(h, FirstWith(h, pieces, x))
  }

  /** The entries an ingest adds are all for its own pieces, and hold them. */
  ghost predicate NewEntries(h: HashFn, packs: map<nat, Bytes>, added: seq<IndexEntry>, pieces: seq<Bytes>) {
    forall k :: 0 <= k < |added| ==> HoldsFirst(h, packs, added[k], pieces)
  }

  ghost predicate HoldsFirst(h: HashFn, packs: map<nat, Bytes>, e: IndexEntry, pieces: seq<Bytes>) {
    e.hash in PieceHashes(h, pieces) && Holds(h, packs, e, FirstWith(h, pieces, e.hash))
  }

  lemma FirstWithSnoc(h: HashFn, before: seq<Bytes>, last: Bytes)
    ensures PieceHashes(h, before + [last]) == PieceHashes(h, before) + {h(last)}
    ensures forall x :: x in PieceHashes(h, before) ==> FirstWith(h, before + [last], x) == FirstWith(h, before, x)
    ensures h(last) !in PieceHashes(h, before) ==> FirstWith(h, before + [last], h(last)) == last
  {
    var pieces := before + [last];
    assert pieces[..|before|] == before && pieces[|before|] == last;
    forall x | x in PieceHashes(h, before)
      ensures x in PieceHashes(h, pieces)
    {
      var i :| 0 <= i < |before| && h(before[i]) == x;
      assert pieces[i] == before[i];
    }
  }

  /** A chunk about to be packed is not among those already put. */
  lemma PackedIsFirst(h: HashFn, d: Disk, s: Handle, log: seq<IndexEntry>, before: seq<Bytes>, last: Bytes)
    requires DiskInv(h, d, log, []) && HandleInv(d, s, log) && Packs(h, d, s, last)
    requires AllStored(h, d, s, log, before)
    ensures h(last) !in PieceHashes(h, before)
  {
    NotDuplicate(h, d, s, h(last), log, []);
    hide DiskInv, Packs, References, RefKeys, LogKeys, InSync;
    assert !Stored(d, s, log, h(last));
    forall i | 0 <= i < |before|
      ensures h(before[i]) != h(last)
    {
      assert Stored(d, s, log, h(before[i]));
    }
  }

  ghost predicate Unreferenced(text: Bytes, added: seq<IndexEntry>) {
    forall k :: 0 <= k < |added| ==> added[k].hash !in RefKeys(References(Whole(text)))
  }

  lemma {:induction false} PutAllEffect(h: HashFn, d: Disk, s: Handle, pieces: seq<Bytes>, log: seq<IndexEntry>)
    returns (added: seq<IndexEntry>)
    requires DiskInv(h, d, log, []) && HandleInv(d, s, log) && PutAll(h, d, s, pieces).result.Ok?
    ensures var o := PutAll(h, d, s, pieces);
      && DiskInv(h, o.disk, log + added, []) && HandleInv(o.disk, o.handle, log + added)
      && Grown(d, o.disk) && o.disk.refs == d.refs
      && (o.handle.refs, o.handle.refsPos) == SeenRefs(h, d, s, log, pieces)
      && AllStored(h, o.disk, o.handle, log + added, pieces)
      && NewEntries(h, o.disk.packs, added, pieces) && Unreferenced(d.refs, added)
      && (AllStored(h, d, s, log, pieces) ==> added == [])
  {
    hide DiskInv, HandleInv, PutStep, LogAfterPut, Grown, Holds, RefreshRefs, LogKeys, References;
    if pieces == [] {
      added := [];
      EmptyTail(log);
      GrownSelf(d);
      return;
    }
    var n := |pieces| - 1;
    var before, last := pieces[..n], pieces[n];
    var was := PutAllEffect(h, d, s, before, log);
    var o := PutAll(h, d, s, before);
    added := OnePutEffect(h, d, s, log, before, was, o.disk, o.handle, last);
    assert pieces == before + [last];
  }

  lemma OnePutEffect(h: HashFn, d: Disk, s: Handle, log: seq<IndexEntry>, before: seq<Bytes>, was: seq<IndexEntry>,
                     d1: Disk, s1: Handle, last: Bytes) returns (added: seq<IndexEntry>)
    requires DiskInv(h, d, log, []) && HandleInv(d, s, log)
    requires DiskInv(h, d1, log + was, []) && HandleInv(d1, s1, log + was)
    requires Grown(d, d1) && d1.refs == d.refs && (s1.refs, s1.refsPos) == SeenRefs(h, d, s, log, before)
    requires AllStored(h, d1, s1, log + was, before) && NewEntries(h, d1.packs, was, before)
      && Unreferenced(d.refs, was)
    requires AllStored(h, d, s, log, before) ==> was == []
    requires PutStep(h, d1, s1, last).result.Ok?
    ensures var o, pieces := PutStep(h, d1, s1, last), before + [last];
      && DiskInv(h, o.disk, log + added, []) && HandleInv(o.disk, o.handle, log + added)
      && Grown(d, o.disk) && o.disk.refs == d.refs
      && (o.handle.refs, o.handle.refsPos) == SeenRefs(h, d, s, log, pieces)
      && AllStored(h, o.disk, o.handle, log + added, pieces)
      && NewEntries(h, o.disk.packs, added, pieces) && Unreferenced(d.refs, added)
      && (AllStored(h, d, s, log, pieces) ==> added == [])
  {
    hide DiskInv, HandleInv, PutStep, Grown, Holds, RefreshRefs, LogKeys, Packs, NewEntry, References, RefKeys,
      PieceHashes, FirstWith;
    var o, pieces := PutStep(h, d1, s1, last), before + [last];
    PutKeeps(h, d1, s1, last, log + was);
    PutStores(h, d1, s1, last, log + was);
    GrownTrans(d, d1, o.disk);
    SeenAfter(h, d, s, log, before, was, d1, s1, last);
    forall i | 0 <= i < |pieces|
      ensures Stored(o.disk, o.handle, LogAfterPut(h, d1, s1, last, log + was), h(pieces[i]))
    {
      if i < |before| {
        assert Stored(d1, s1, log + was, h(before[i]));
        StoredStays(h, d1, s1, last, log + was, h(pieces[i]));
      }
    }
    GrownEntries(h, d1, o.disk, was, before, last);
    if Packs(h, d1, s1, last) {
      var e := NewEntry(h, d1, s1, last);
      added := was + [e];
      PutPacks(h, d1, s1, last, log + was);
      NewcomerUnreferenced(h, d1, s1, last, log + was);
      PackedIsFirst(h, d1, s1, log + was, before, last);
      FirstWithSnoc(h, before, last);
      assert e.hash == h(last) by { EntryHash(h, d1, s1, last); }
      assert HoldsFirst(h, o.disk.packs, e, pieces);
      ConcatAssoc(log, was, [e]);
      assert pieces[|before|] == last;
      assert added[|was|] == e;
    } else {
      added := was;
    }
  }

  lemma EntryHash(h: HashFn, d: Disk, s: Handle, bytes: Bytes)
    requires Packs(h, d, s, bytes)
    ensures NewEntry(h, d, s, bytes).hash == h(bytes)
  {
  }

  lemma NewcomerUnreferenced(h: HashFn, d: Disk, s: Handle, bytes: Bytes, log: seq<IndexEntry>)
    requires DiskInv(h, d, log, []) && HandleInv(d, s, log) && Packs(h, d, s, bytes)
    ensures NewEntry(h, d, s, bytes).hash !in RefKeys(References(Whole(d.refs)))
  {
    NotDuplicate(h, d, s, h(bytes), log, []);
    hide DiskInv, HandleInv, RefKeys, References, WritePack, BeforeWrite, Duplicate;
  }

  lemma GrownEntries(h: HashFn, d: Disk, d': Disk, added: seq<IndexEntry>, pieces: seq<Bytes>, last: Bytes)
    requires NewEntries(h, d.packs, added, pieces) && Grown(d, d')
    ensures NewEntries(h, d'.packs, added, pieces + [last])
  {
    hide Holds, Grown, PieceHashes, FirstWith;
    FirstWithSnoc(h, pieces, last);
    forall k | 0 <= k < |added|
      ensures HoldsFirst(h, d'.packs, added[k], pieces + [last])
    {
      assert HoldsFirst(h, d.packs, added[k], pieces);
      GrownHolds(h, d, d', added[k], FirstWith(h, pieces, added[k].hash));
    }
  }

  lemma SeenAfter(h: HashFn, d: Disk, s: Handle, log: seq<IndexEntry>, before: seq<Bytes>, was: seq<IndexEntry>,
                  d1: Disk, s1: Handle, last: Bytes)
    requires HandleInv(d, s, log) && Grown(d, d1)
    requires DiskInv(h, d1, log + was, []) && HandleInv(d1, s1, log + was) && d1.refs == d.refs
    requires (s1.refs, s1.refsPos) == SeenRefs(h, d, s, log, before)
    requires AllStored(h, d, s, log, before) ==> was == []
    ensures var o, pieces := PutStep(h, d1, s1, last), before + [last];
      && (o.handle.refs, o.handle.refsPos) == SeenRefs(h, d, s, log, pieces)
      && (AllStored(h, d, s, log, pieces) ==> !Packs(h, d1, s1, last) && was == [])
  {
    hide DiskInv, HandleInv, PutStep, LogKeys, HasStep, RefreshRefs, WritePack, BeforeWrite;
    PutRefsExact(h, d1, s1, last);
    HasKeeps(h, d1, s1, log + was, [], h(last));
    RefreshTwice(d, s, log);
    RefreshSame(d, s, d1, s1);
    SnocStored(h, d, s, log, before, last);
    if AllStored(h, d, s, log, before) {
      EmptyTail(log);
    }
    hide AllStored;
  }

  lemma SnocStored(h: HashFn, d: Disk, s: Handle, log: seq<IndexEntry>, before: seq<Bytes>, last: Bytes)
    ensures AllStored(h, d, s, log, before + [last]) <==> AllStored(h, d, s, log, before) && Stored(d, s, log, h(last))
  {
    hide Stored;
    var pieces := before + [last];
    assert pieces[|before|] == last;
    assert forall i :: 0 <= i < |before| ==> pieces[i] == before[i];
  }

  lemma RefreshTwice(d: Disk, s: Handle, log: seq<IndexEntry>)
    requires HandleInv(d, s, log)
    ensures RefreshRefs(d, s).refsPos == |Whole(d.refs)|
  {
    RefreshRefsReaches(d, s);
    hide InsertRefs, References, CompleteLength, Whole;
  }

  lemma RefreshSame(d: Disk, s: Handle, d1: Disk, s1: Handle)
    requires d1.refs == d.refs
    ensures s1.refs == s.refs && s1.refsPos == s.refsPos ==>
      RefreshRefs(d1, s1).refs == RefreshRefs(d, s).refs && RefreshRefs(d1, s1).refsPos == RefreshRefs(d, s).refsPos
    ensures s1.refsPos == |Whole(d.refs)| ==> RefreshRefs(d1, s1) == s1
  {
    hide InsertRefs, References, CompleteLength;
    if s1.refsPos == |Whole(d.refs)| {
      CompleteOfTail(d.refs, s1.refsPos);
      NoReferences(s1.refs);
      assert d.refs[s1.refsPos..][..0] == [];
    }
  }

  /** A chunk put or stored already is readable after successful puts if and only if it was welcome
      before: new, or readable where it was already known to be. */
  lemma ReadableIffWelcome(h: HashFn, d: Disk, s: Handle, log: seq<IndexEntry>, sources: Sources, pieces: seq<Bytes>,
                      x: Digest)
    requires DiskInv(h, d, log, []) && HandleInv(d, s, log) && PutAll(h, d, s, pieces).result.Ok?
    requires x in PieceHashes(h, pieces) || Stored(d, s, log, x)
    ensures var o := PutAll(h, d, s, pieces);
      Readable(h, o.disk, o.handle, sources, x) <==>
        Welcome(h, d, SeenRefs(h, d, s, log, pieces).0, log, sources, pieces, x)
  {
    hide PutAll, SeenRefs, HandleInv, DiskInv, PackedLog, Sound, RefIntact, Holds, Fitting, FirstWith;
    var o := PutAll(h, d, s, pieces);
    var added := PutAllEffect(h, d, s, pieces, log);
    var log' := log + added;
    PackedLogIs(h, o.disk, log', []);
    var log'' := PutAllKeeps(h, d, s, pieces, log);
    PackedLogIs(h, o.disk, log'', []);
    assert Stored(o.disk, o.handle, log', x);
    LogKeysAppend(log, added);
    if x in LogKeys(log) {
      OldEntry(h, d, o.disk, log, added, x);
    } else if x in LogKeys(added) {
      var k :| 0 <= k < |added| && added[k].hash == x;
      NewcomerUnknown(h, d, o.disk, o.handle, log, added, k);
      assert HoldsFirst(h, o.disk.packs, added[k], pieces);
      HeldSoundIff(h, o.disk.packs, added[k], FirstWith(h, pieces, x));
      OnlyEntry(h, o.disk, log, added, k);
    }
  }

  lemma HeldSoundIff(h: HashFn, packs: map<nat, Bytes>, e: IndexEntry, bytes: Bytes)
    requires Holds(h, packs, e, bytes)
    ensures Sound(h, packs, e) <==> Fitting(h, bytes)
  {
    HeldRegion(h, packs, e, bytes);
    var pack, n := packs[e.loc.pack], e.loc.length;
    assert Region(packs, e) == bytes[..n] by {
      assert pack[e.loc.offset..e.loc.offset + |bytes|][..n] == pack[e.loc.offset..e.loc.offset + n];
    }
  }

  lemma OnlyEntry(h: HashFn, d: Disk, log: seq<IndexEntry>, added: seq<IndexEntry>, k: nat)
    requires DiskInv(h, d, log + added, []) && k < |added|
    ensures added[k] in log + added
    ensures forall e :: e in log + added && e.hash == added[k].hash ==> e == added[k]
  {
    hide Held, Apart, Render;
    var all := log + added;
    assert all[|log| + k] == added[k];
    forall e | e in all && e.hash == added[k].hash
      ensures e == added[k]
    {
      OneEntryPerChunk(all, |log| + k, e);
    }
  }

  lemma LogKeysAppend(a: seq<IndexEntry>, b: seq<IndexEntry>)
    ensures LogKeys(a + b) == LogKeys(a) + LogKeys(b)
  {
    var all := a + b;
    forall x | x in LogKeys(a)
      ensures x in LogKeys(all)
    {
      var i :| 0 <= i < |a| && a[i].hash == x;
      assert all[i].hash == x;
    }
    forall x | x in LogKeys(b)
      ensures x in LogKeys(all)
    {
      var i :| 0 <= i < |b| && b[i].hash == x;
      assert all[|a| + i].hash == x;
    }
  }

  /** What was packed before reads as before. */
  lemma OldEntry(h: HashFn, d: Disk, d': Disk, log: seq<IndexEntry>, added: seq<IndexEntry>, x: Digest)
    requires DiskInv(h, d, log, []) && DiskInv(h, d', log + added, []) && Grown(d, d') && x in LogKeys(log)
    ensures (exists e :: e in log + added && e.hash == x && Sound(h, d'.packs, e))
       <==> (exists e :: e in log && e.hash == x && Sound(h, d.packs, e))
  {
    hide Held, Region, Apart, Render;
    var log' := log + added;
    var i :| 0 <= i < |log| && log[i].hash == x;
    var e := log[i];
    HeldInBounds(h, d.packs, e);
    RegionGrows(d.packs, d'.packs, e);
    assert log'[i] == e;
    forall f | f in log' && f.hash == x
      ensures f == e
    {
      OneEntryPerChunk(log', i, f);
    }
  }

  /** What the ingest packed was in no object and in no reference. */
  lemma NewcomerUnknown(h: HashFn, d: Disk, d': Disk, s': Handle, log: seq<IndexEntry>, added: seq<IndexEntry>, k: nat)
    requires DiskInv(h, d', log + added, []) && HandleInv(d', s', log + added) && Grown(d, d') && d'.refs == d.refs
    requires Unreferenced(d.refs, added) && k < |added|
    ensures added[k].hash !in d.objects && added[k].hash !in s'.refs
  {
    hide References, LogKeys, InSync;
    assert (log + added)[|log| + k] == added[k];
  }

  // ---- export through a handle that refreshes as it goes ----

  datatype ExportError = FromStore(cause: StoreError) | FromManifest(reason: ManifestError)

  /** A store error wins over the failed chunk it caused. */
  function ExportResult<T>(h: HashFn, m: Manifest, d: Disk, s: Handle, sources: Sources,
                      r: Outcome<T>): Result<T, ExportError> {
    match r
    case Ok(t) => Ok(t)
    case Err(BadChunk(i)) =>
      if i < |m.chunks| && GetStep(h, d, s, sources, m.chunks[i].hash).0.Err?
      then Err(FromStore(GetStep(h, d, s, sources, m.chunks[i].hash).0.error))
      else Err(FromManifest(BadChunk(i)))
    case Err(e) => Err(FromManifest(e))
  }

  /** What `get` answers does not depend on how far the handle has read. */
  lemma GetIndependentOfProgress(h: HashFn, d: Disk, s: Handle, s': Handle, sources: Sources, log: seq<IndexEntry>,
                      torn: Bytes, x: Digest)
    requires DiskInv(h, d, log, torn) && HandleInv(d, s, log) && HandleInv(d, s', log) && s.refs == s'.refs
    ensures GetStep(h, d, s, sources, x).0 == GetStep(h, d, s', sources, x).0
  {
    hide GetStep, HasStep, DiskInv, HandleInv, Region;
    if x in LogKeys(log) {
      var i :| 0 <= i < |log| && log[i].hash == x;
      PackedIsFound(h, d, s, sources, log, torn, i);
      PackedIsFound(h, d, s', sources, log, torn, i);
    } else {
      NotPacked(h, d, s, sources, log, torn, x);
      NotPacked(h, d, s', sources, log, torn, x);
    }
  }

  lemma GetKeepsRefs(h: HashFn, d: Disk, s: Handle, sources: Sources, x: Digest)
    ensures GetStep(h, d, s, sources, x).1.refs == s.refs
  {
    hide ReadIndexed, ReadReference;
  }
}
