/** Where references lead: in every run each handle takes a referenced chunk from the place the last
    line about it names, and a reference once written is followed by every handle opened later. */
module RefTheorems {
  import opened Basics
  import opened Text
  import opened IndexLog
  import opened RefLog
  import opened StoreSpec
  import opened StoreInvariant
  import opened StoreSteps
  import opened StoreTheorems
  import opened Reading
  import opened Transfer

  // ---- the last reference wins ----

  /** Reference `i` is the last one to `x`. */
  ghost predicate LastWith(refs: seq<Reference>, x: Digest, i: nat) {
    i < |refs| && refs[i].hash == x && forall j :: i < j < |refs| ==> refs[j].hash != x
  }

  lemma {:induction false} LastExists(refs: seq<Reference>, x: Digest) returns (i: nat)
    requires x in RefKeys(refs)
    ensures LastWith(refs, x, i)
  {
    var n := |refs| - 1;
    if refs[n].hash == x {
      i := n;
    } else {
      var k :| 0 <= k < |refs| && refs[k].hash == x;
      assert refs[..n][k].hash == x;
      i := LastExists(refs[..n], x);
    }
  }

  /** After absorbing references, a chunk's place is that of the last of them about it, and the old
      one if there is none. */
  lemma {:induction false} InsertRefsMeaning(refs: seq<Reference>, known: map<Digest, RefLoc>, x: Digest)
    ensures var all := InsertRefs(refs, known);
      && (forall i: nat :: LastWith(refs, x, i) ==> x in all && all[x] == refs[i].loc)
      && (x !in RefKeys(refs) ==> (x in all <==> x in known) && (x in known ==> all[x] == known[x]))
  {
    if refs != [] {
      var n := |refs| - 1;
      var before, last := refs[..n], refs[n];
      assert refs == before + [last];
      InsertRefsMeaning(before, known, x);
      InsertRefsAppend(before, [last], known);
      OneInserted(last, InsertRefs(before, known));
      hide InsertRefs;
      RefKeysAppend(before, [last]);
      assert [last][0].hash in RefKeys([last]);
      assert last.hash != x ==> forall i: nat :: LastWith(refs, x, i) ==> LastWith(before, x, i);
    }
  }

  lemma OneInserted(r: Reference, known: map<Digest, RefLoc>)
    ensures InsertRefs([r], known) == known[r.hash := r.loc]
  {
    assert [r][1..] == [];
  }

  /** The last line about `x` among those of `text` names this place. */
  ghost predicate LastSpelled(text: Bytes, x: Digest, loc: RefLoc) {
    exists i: nat :: LastWith(References(text), x, i) && References(text)[i].loc == loc
  }

  /** More lines without the chunk change nothing; with it, the last of them decides. */
  lemma LastAppend(refs: seq<Reference>, more: seq<Reference>, x: Digest)
    ensures forall i: nat :: LastWith(more, x, i) ==> LastWith(refs + more, x, |refs| + i)
    ensures x !in RefKeys(more) ==> forall i: nat :: LastWith(refs, x, i) ==> LastWith(refs + more, x, i)
  {
    var all := refs + more;
    assert forall i :: 0 <= i < |more| ==> all[|refs| + i] == more[i];
    if x !in RefKeys(more) {
      assert forall i :: 0 <= i < |more| ==> more[i].hash != x by {
        forall i | 0 <= i < |more|
          ensures more[i].hash != x
        {
          assert more[i].hash in RefKeys(more);
        }
      }
    }
  }

  lemma LastSpelledAppend(head: Bytes, tail: Bytes, x: Digest, loc: RefLoc)
    requires WholeLines(head) && LastSpelled(head, x, loc) && x !in RefKeys(References(tail))
    ensures LastSpelled(head + tail, x, loc)
  {
    hide References, RefKeys;
    ReferencesAppend(head, tail);
    LastAppend(References(head), References(tail), x);
    var i: nat :| LastWith(References(head), x, i) && References(head)[i].loc == loc;
    assert LastWith(References(head + tail), x, i) && References(head + tail)[i] == References(head)[i];
  }

  lemma LastInRange(refs: seq<Reference>, x: Digest, i: nat)
    requires LastWith(refs, x, i)
    ensures i < |refs|
  {
  }

  lemma LastSpelledIn(head: Bytes, tail: Bytes, known: map<Digest, RefLoc>, x: Digest)
    requires WholeLines(head) && x in RefKeys(References(tail))
    ensures var all := InsertRefs(References(tail), known); x in all && LastSpelled(head + tail, x, all[x])
  {
    hide References, RefKeys, LastWith, InsertRefs;
    ReferencesAppend(head, tail);
    var a, b := References(head), References(tail);
    var i := LastExists(b, x);
    InsertRefsMeaning(b, known, x);
    LastAppend(a, b, x);
    LastInRange(b, x, i);
    assert LastWith(References(head + tail), x, |a| + i) && (a + b)[|a| + i] == b[i];
  }

  // ---- what a step does to the references a handle knows ----

  datatype Change = Kept | Refreshed | Added(r: Reference) | Loaded

  /** The acting or bystanding handle `id` either keeps what it knows while the file only grows, or
      catches up with the file, or adds a reference of its own, or has just been opened. */
  ghost predicate Changes(a: System, b: System, id: nat, c: Change) {
    && id in b.handles
    && (!c.Loaded? ==> id in a.handles)
    && var s', text, text' := b.handles[id], Whole(a.disk.refs), Whole(b.disk.refs);
    match c
    case Kept => s'.refs == a.handles[id].refs && s'.refsPos == a.handles[id].refsPos && text <= text'
    case Refreshed =>
      && text' == text && a.handles[id].refsPos <= |text| && s'.refsPos == |text|
      && s'.refs == InsertRefs(References(text[a.handles[id].refsPos..]), a.handles[id].refs)
    case Added(r) =>
      && Referable(r) && text' == text + FormatRef(r) && s'.refsPos == a.handles[id].refsPos
      && s'.refs == a.handles[id].refs[r.hash := r.loc]
    case Loaded => s'.refs == InsertRefs(References(text'), map[]) && s'.refsPos == |text'|
  }

  lemma StepChanges(h: HashFn, a: System, act: Action, b: System, log: seq<IndexEntry>, torn: Bytes,
                    id: nat) returns (c: Change)
    requires SystemInv(h, a, log, torn) && Step(h, a, act, b) && Orderly(h, a, act, b) && id in b.handles
    ensures Changes(a, b, id, c)
    ensures c.Added? <==> act.Refer? && act.id == id
    ensures c.Added? ==> c.r == act.r
  {
    hide DiskInv, PutStep, HasStep, GetStep, ReferStep, TornPut, TornRefer, Opened, Whole, WholeLines, Packs, InSync;
    hide InsertRefs, References, FormatRef, TornTrim;
    c := Kept;
    match act
    case Open(j) =>
      var s :| Opened(a.disk, b.disk, s) && b.handles == a.handles[j := s];
      OpenedLoads(a.disk, b.disk, s);
      if j == id {
        c := Loaded;
      }
    case Close(j) =>
    case Put(j, bytes) =>
      PutKeepsText(h, a.disk, a.handles[j], bytes);
      if j == id {
        var s := a.handles[id];
        assert HandleInv(a.disk, s, log);
        PutRefsExact(h, a.disk, s, bytes);
        RefreshRefsReaches(a.disk, s);
        if !HasStep(a.disk, s, h(bytes)).0 {
          c := Refreshed;
        }
      }
    case Has(j, x) =>
      RefreshKeepsRefs(a.disk, a.handles[j], x);
    case Get(j, x, sources) =>
      GetKeepsCursor(h, a.disk, a.handles[j], sources, x);
    case Refer(j, r) =>
      ReferChanges(a.disk, a.handles[j], r);
      if j == id {
        c := Added(r);
      }
    case Crash(j, bytes) =>
      if a.disk != b.disk {
        TornPutKeepsText(h, a.disk, a.handles[j], bytes, b.disk);
      }
    case CrashReferring(j, r) =>
      TornReferGrows(a.disk, r, b.disk);
    case CrashTrimming =>
  }

  lemma OpenedLoads(d: Disk, d': Disk, s: Handle)
    requires Opened(d, d', s)
    ensures Whole(d'.refs) == Whole(d.refs) == d'.refs
    ensures s.refs == InsertRefs(References(Whole(d'.refs)), map[]) && s.refsPos == |Whole(d'.refs)|
  {
    hide InsertRefs, References, CompleteLength, InsertAll, Entries, HighestPack;
    CompleteIsWhole(d.refs);
    CompleteIsWhole(d'.refs);
  }

  lemma PutKeepsText(h: HashFn, d: Disk, s: Handle, bytes: Bytes)
    ensures PutStep(h, d, s, bytes).disk.refs == d.refs
  {
    hide HasStep, BeforeWrite, FormatEntry;
  }

  lemma TornPutKeepsText(h: HashFn, d: Disk, s: Handle, bytes: Bytes, d': Disk)
    requires TornPut(h, d, s, bytes, d')
    ensures d'.refs == d.refs
  {
    hide Duplicate, BeforeWrite, FormatEntry;
  }

  lemma GetKeepsCursor(h: HashFn, d: Disk, s: Handle, sources: Sources, x: Digest)
    ensures GetStep(h, d, s, sources, x).1.refs == s.refs && GetStep(h, d, s, sources, x).1.refsPos == s.refsPos
  {
    hide ReadIndexed, ReadReference;
  }

  lemma ReferChanges(d: Disk, s: Handle, r: Reference)
    requires WholeLines(d.refs)
    ensures var (d', s') := ReferStep(d, s, r);
      && Whole(d'.refs) == Whole(d.refs) + FormatRef(r) && Whole(d.refs) <= Whole(d'.refs)
      && s'.refs == s.refs[r.hash := r.loc] && s'.refsPos == s.refsPos
  {
    hide HasStep, CompleteLength, RefText;
    RefreshKeepsRefs(d, s, r.hash);
    CompleteIsWhole(d.refs);
    CompleteIsWhole(d.refs + FormatRef(r));
  }

  lemma TornReferGrows(d: Disk, r: Reference, d': Disk)
    requires TornRefer(d, r, d') && WholeLines(d.refs)
    ensures Whole(d.refs) <= Whole(d'.refs)
  {
    hide FormatRef, CompleteLength;
    WholeGrows(d.refs, d'.refs);
  }

  // ---- every run ----

  /** The handle's last own reference to `x`, written at step `m`, since when it has not refreshed. */
  ghost predicate OwnSince(states: seq<System>, acts: seq<Action>, m: nat, n: nat, id: nat, x: Digest, loc: RefLoc)
    requires |states| == |acts| + 1 && n < |states| && id in states[n].handles
  {
    && m < n && acts[m].Refer? && acts[m].id == id && acts[m].r.hash == x && acts[m].r.loc == loc
    && (forall k :: m < k < n && acts[k].Refer? && acts[k].id == id ==> acts[k].r.hash != x)
    && (forall k :: m < k <= n ==>
      id in states[k].handles && states[k].handles[id].refsPos == states[n].handles[id].refsPos)
  }

  ghost predicate RefTraced(states: seq<System>, acts: seq<Action>, n: nat, id: nat, x: Digest)
    requires |states| == |acts| + 1 && n < |states| && id in states[n].handles
  {
    var s, text := states[n].handles[id], Whole(states[n].disk.refs);
    && x in s.refs && s.refsPos <= |text|
    && ( || LastSpelled(text[..s.refsPos], x, s.refs[x])
         || (x in RefKeys(References(text[s.refsPos..]))
           && exists m: nat :: OwnSince(states, acts, m, n, id, x, s.refs[x])))
  }

  /** In every run, the place a handle has for a chunk is the one the last line about it names among
      the lines the handle has read, or the one the handle itself wrote last since it read. */
  lemma {:induction false} ReferencesTraced(h: HashFn, states: seq<System>, acts: seq<Action>, n: nat, id: nat,
                      x: Digest)
    requires Run(h, states, acts) && n < |states| && id in states[n].handles && x in states[n].handles[id].refs
    ensures RefTraced(states, acts, n, id, x)
  {
    hide Step, Orderly, DiskInv, InSync, LastSpelled, OwnSince, Whole, WholeLines, References, RefKeys, InsertRefs,
      FormatRef;
    if n > 0 {
      var _, _, log, torn := RunKeeps(h, states, acts, n - 1, n - 1);
      var a, b := states[n - 1], states[n];
      var c := StepChanges(h, a, acts[n - 1], b, log, torn, id);
      var s, text := b.handles[id], Whole(b.disk.refs);
      assert text[..|text|] == text;
      if c.Loaded? {
        LoadedSpelled(text, x);
      } else {
        assert HandleInv(a.disk, a.handles[id], log);
        if x in a.handles[id].refs {
          ReferencesTraced(h, states, acts, n - 1, id, x);
        }
        if c.Refreshed? {
          RefreshedSpelled(text, a.handles[id], x);
        } else if c.Added? && c.r.hash == x {
          AddedIsBehind(Whole(a.disk.refs), a.handles[id], c.r);
          JustAdded(states, acts, n, id, c.r);
        } else {
          KeptTraced(states, acts, n, id, x);
        }
      }
    }
  }

  lemma LoadedSpelled(text: Bytes, x: Digest)
    requires x in InsertRefs(References(text), map[])
    ensures LastSpelled(text, x, InsertRefs(References(text), map[])[x])
  {
    hide LastSpelled, References, RefKeys, InsertRefs;
    InsertRefsMeaning(References(text), map[], x);
    EmptyConcat(text);
    LastSpelledIn([], text, map[], x);
  }

  lemma RefreshedSpelled(text: Bytes, was: Handle, x: Digest)
    requires RefsInv(text, was)
    requires x in was.refs ==>
      LastSpelled(text[..was.refsPos], x, was.refs[x]) || x in RefKeys(References(text[was.refsPos..]))
    ensures var refs := InsertRefs(References(text[was.refsPos..]), was.refs); x in refs ==>
      LastSpelled(text, x, refs[x])
  {
    hide LastSpelled, References, RefKeys, InsertRefs;
    var head, tail := text[..was.refsPos], text[was.refsPos..];
    assert head + tail == text;
    if x in RefKeys(References(tail)) {
      LastSpelledIn(head, tail, was.refs, x);
    } else {
      InsertRefsMeaning(References(tail), was.refs, x);
      if x in was.refs {
        LastSpelledAppend(head, tail, x, was.refs[x]);
      }
    }
  }

  /** A step that leaves the handle's place for `x` and its cursor alone leaves it traced. */
  lemma KeptTraced(states: seq<System>, acts: seq<Action>, n: nat, id: nat, x: Digest)
    requires |states| == |acts| + 1 && 0 < n < |states| && id in states[n - 1].handles && id in states[n].handles
    requires RefTraced(states, acts, n - 1, id, x)
    requires RefsInv(Whole(states[n - 1].disk.refs), states[n - 1].handles[id])
    requires states[n].handles[id].refsPos == states[n - 1].handles[id].refsPos
    requires x in states[n].handles[id].refs && states[n].handles[id].refs[x] == states[n - 1].handles[id].refs[x]
    requires Whole(states[n - 1].disk.refs) <= Whole(states[n].disk.refs)
    requires acts[n - 1].Refer? && acts[n - 1].id == id ==> acts[n - 1].r.hash != x
    ensures RefTraced(states, acts, n, id, x)
  {
    hide LastSpelled, Whole, References, RefKeys, OwnSince, RefsInv;
    var s, text, text' := states[n].handles[id], Whole(states[n - 1].disk.refs), Whole(states[n].disk.refs);
    TailGrows(text, text', states[n - 1].handles[id]);
    assert text'[..s.refsPos] == text[..s.refsPos];
    if !LastSpelled(text[..s.refsPos], x, s.refs[x]) {
      var m: nat :| OwnSince(states, acts, m, n - 1, id, x, s.refs[x]);
      OwnStays(states, acts, m, n, id, x, s.refs[x]);
    }
  }

  lemma TailGrows(text: Bytes, text': Bytes, s: Handle)
    requires RefsInv(text, s) && text <= text'
    ensures s.refsPos <= |text'|
    ensures RefKeys(References(text[s.refsPos..])) <= RefKeys(References(text'[s.refsPos..]))
  {
    hide References, RefKeys;
    var tail, more := text[s.refsPos..], text'[|text|..];
    assert text'[s.refsPos..] == tail + more;
    assert WholeLines(tail) by { assert tail != [] ==> tail[|tail| - 1] == text[|text| - 1]; }
    ReferencesAppend(tail, more);
    RefKeysAppend(References(tail), References(more));
  }

  lemma OwnStays(states: seq<System>, acts: seq<Action>, m: nat, n: nat, id: nat, x: Digest, loc: RefLoc)
    requires |states| == |acts| + 1 && 0 < n < |states| && id in states[n - 1].handles && id in states[n].handles
    requires OwnSince(states, acts, m, n - 1, id, x, loc)
    requires states[n].handles[id].refsPos == states[n - 1].handles[id].refsPos
    requires acts[n - 1].Refer? && acts[n - 1].id == id ==> acts[n - 1].r.hash != x
    ensures OwnSince(states, acts, m, n, id, x, loc)
  {
  }

  lemma JustAdded(states: seq<System>, acts: seq<Action>, n: nat, id: nat, r: Reference)
    requires |states| == |acts| + 1 && 0 < n < |states| && id in states[n].handles
    requires acts[n - 1].Refer? && acts[n - 1].id == id && acts[n - 1].r == r
    ensures OwnSince(states, acts, n - 1, n, id, r.hash, r.loc)
  {
  }

  lemma AddedIsBehind(text: Bytes, s: Handle, r: Reference)
    requires RefsInv(text, s) && Referable(r)
    ensures r.hash in RefKeys(References((text + FormatRef(r))[s.refsPos..]))
  {
    hide References, FormatRef;
    var tail, all := text[s.refsPos..], text + FormatRef(r);
    assert all[s.refsPos..] == tail + FormatRef(r);
    assert WholeLines(tail) by { assert tail != [] ==> tail[|tail| - 1] == text[|text| - 1]; }
    ReferencesAppend(tail, FormatRef(r));
    RefKeysAppend(References(tail), References(FormatRef(r)));
    AddedReference(r);
    assert References(FormatRef(r))[0].hash == r.hash;
  }

  // ---- refer now, serve later ----

  /** Nothing said about `x` in these steps, and nothing that could be read as such. */
  ghost predicate Unmentioned(acts: seq<Action>, i: nat, j: nat, x: Digest) {
    forall k :: i <= k < j && k < |acts| && (acts[k].Refer? || acts[k].CrashReferring?) ==>
      acts[k].r.hash != x && CleanPath(acts[k].r.loc.path)
  }

  lemma LineAdded(text: Bytes, r: Reference)
    requires WholeLines(text) && Referable(r) && CleanPath(r.loc.path)
    ensures References(text + FormatRef(r)) == References(text) + [r]
  {
    hide References, FormatRef, CleanPath;
    ReferencesAppend(text, FormatRef(r));
    ReferenceReadsBackIff(r);
  }

  lemma LastIsNew(text: Bytes, r: Reference)
    requires WholeLines(text) && Referable(r) && CleanPath(r.loc.path)
    ensures LastSpelled(text + FormatRef(r), r.hash, r.loc)
  {
    hide References, FormatRef, CleanPath;
    LineAdded(text, r);
    var refs := References(text);
    assert LastWith(refs + [r], r.hash, |refs|) && (refs + [r])[|refs|] == r;
  }

  lemma LastStays(text: Bytes, q: Reference, x: Digest, loc: RefLoc)
    requires WholeLines(text) && Referable(q) && CleanPath(q.loc.path) && q.hash != x && LastSpelled(text, x, loc)
    ensures LastSpelled(text + FormatRef(q), x, loc)
  {
    hide LastSpelled, FormatRef, References;
    ReferenceReadsBackIff(q);
    assert RefKeys([q]) == {q.hash} by { assert [q][0] == q; }
    LastSpelledAppend(text, FormatRef(q), x, loc);
  }

  /** A clean reference line cut off before its end leaves the whole lines as they were. */
  lemma CutReference(text: Bytes, q: Reference, n: nat)
    requires WholeLines(text) && CleanPath(q.loc.path) && n <= |FormatRef(q)|
    ensures Whole(text + FormatRef(q)[..n]) == if n == |FormatRef(q)| then text + FormatRef(q) else text
  {
    RefHeadPlain(q);
    assert q == q.(loc := q.loc.(path := q.loc.path));
    hide RefText, RefHead, CompleteLength;
    var all := text + FormatRef(q)[..n];
    if n == |FormatRef(q)| {
      assert FormatRef(q)[..n] == FormatRef(q);
      CompleteIsWhole(all);
    } else {
      assert FormatRef(q)[..n] == RefText(q)[..n];
      WholeOfTorn(text, RefText(q)[..n]);
    }
  }

  lemma {:induction false} WholeOfTorn(text: Bytes, torn: Bytes)
    requires WholeLines(text) && NEWLINE !in torn
    ensures Whole(text + torn) == text
  {
    if torn == [] {
      EmptyTail(text);
      CompleteIsWhole(text);
    } else {
      var n, all := |torn| - 1, text + torn;
      WholeOfTorn(text, torn[..n]);
      assert all[..|all| - 1] == text + torn[..n] && all[|all| - 1] == torn[n];
      CompleteIsWhole(text + torn[..n]);
    }
  }

  /** One step that does not mention the chunk leaves its last line the last. */
  lemma StepKeepsLast(h: HashFn, a: System, act: Action, b: System, x: Digest, loc: RefLoc)
    requires Step(h, a, act, b) && Orderly(h, a, act, b) && !act.CrashTrimming?
    requires (act.Refer? || act.CrashReferring?) ==> act.r.hash != x && CleanPath(act.r.loc.path)
    requires LastSpelled(Whole(a.disk.refs), x, loc)
    ensures LastSpelled(Whole(b.disk.refs), x, loc)
  {
    hide LastSpelled, PutStep, HasStep, GetStep, TornPut, Opened, Whole, FormatRef, CleanPath;
    match act
    case Open(j) =>
      var s :| Opened(a.disk, b.disk, s) && b.handles == a.handles[j := s];
      OpenedLoads(a.disk, b.disk, s);
    case Close(j) =>
    case Put(j, bytes) =>
      PutKeepsText(h, a.disk, a.handles[j], bytes);
    case Has(j, y) =>
    case Get(j, y, sources) =>
    case Refer(j, r) =>
      ReferChanges(a.disk, a.handles[j], r);
      CompleteIsWhole(a.disk.refs);
      LastStays(a.disk.refs, r, x, loc);
    case Crash(j, bytes) =>
      if a.disk != b.disk {
        TornPutKeepsText(h, a.disk, a.handles[j], bytes, b.disk);
      }
    case CrashReferring(j, r) =>
      var n: nat :| n <= |FormatRef(r)| && b.disk == a.disk.(refs := a.disk.refs + FormatRef(r)[..n]);
      CutReference(a.disk.refs, r, n);
      CompleteIsWhole(a.disk.refs);
      LastStays(a.disk.refs, r, x, loc);
  }

  lemma {:induction false} LastSince(h: HashFn, states: seq<System>, acts: seq<Action>, m: nat, n: nat)
    requires Run(h, states, acts) && m < n < |states| && acts[m].Refer? && CleanPath(acts[m].r.loc.path)
    requires Unmentioned(acts, m + 1, n, acts[m].r.hash) && NoTrimCrash(acts, m, n)
    ensures LastSpelled(Whole(states[n].disk.refs), acts[m].r.hash, acts[m].r.loc)
  {
    hide LastSpelled, Whole, FormatRef, CleanPath;
    var r := acts[m].r;
    if n == m + 1 {
      assert Step(h, states[m], acts[m], states[n]) && Orderly(h, states[m], acts[m], states[n]);
      hide Step;
      ReferredText(h, states[m], acts[m].id, r, states[n]);
      LastIsNew(states[m].disk.refs, r);
    } else {
      hide Step, Orderly;
      LastSince(h, states, acts, m, n - 1);
      StepKeepsLast(h, states[n - 1], acts[n - 1], states[n], r.hash, r.loc);
    }
  }

  lemma ReferredText(h: HashFn, a: System, id: nat, r: Reference, b: System)
    requires Step(h, a, Refer(id, r), b) && WholeLines(a.disk.refs)
    ensures Referable(r) && Whole(b.disk.refs) == a.disk.refs + FormatRef(r)
  {
    hide FormatRef, Whole, HasStep;
    ReferChanges(a.disk, a.handles[id], r);
    CompleteIsWhole(a.disk.refs);
  }

  /** A reference with a clean path is followed by every handle opened later, whoever wrote it, as
      long as no other reference to the chunk has been written: it reads exactly the range the
      reference names, when those bytes have the hash and the chunk is neither packed nor an object. */
  lemma ReferredIsRead(h: HashFn, states: seq<System>, acts: seq<Action>, m: nat, n: nat, id: nat, sources: Sources)
    requires Run(h, states, acts) && m < n < |acts| && acts[m].Refer? && acts[n] == Open(id)
    requires CleanPath(acts[m].r.loc.path) && Unmentioned(acts, m + 1, n, acts[m].r.hash) && NoTrimCrash(acts, m, n)
    ensures id in states[n + 1].handles
    ensures var d, s, x, loc := states[n + 1].disk, states[n + 1].handles[id], acts[m].r.hash, acts[m].r.loc;
      && x in s.refs && s.refs[x] == loc
      && (x !in LogKeys(PackedLog(d)) && x !in d.objects && RangeHolds(h, loc, sources, x) ==>
            GetStep(h, d, s, sources, x).0 == Ok(Some(sources[loc.path][loc.offset..loc.offset + loc.length])))
  {
    hide LastSpelled, Whole, CleanPath, PackedLog, GetStep, Opened, References, InsertRefs, LogKeys, DiskInv, HandleInv;
    var a, b, x, loc := states[n], states[n + 1], acts[m].r.hash, acts[m].r.loc;
    LastSince(h, states, acts, m, n);
    assert Step(h, a, Open(id), b);
    var s :| Opened(a.disk, b.disk, s) && b.handles == a.handles[id := s];
    OpenedLoads(a.disk, b.disk, s);
    LastIsLoaded(Whole(b.disk.refs), x, loc);
    var _, _, log, torn := RunKeeps(h, states, acts, n + 1, n + 1);
    assert HandleInv(b.disk, b.handles[id], log);
    ReadWhereReferred(h, b.disk, s, log, torn, sources, x, loc);
  }

  lemma ReadWhereReferred(h: HashFn, d: Disk, s: Handle, log: seq<IndexEntry>, torn: Bytes, sources: Sources,
                          x: Digest, loc: RefLoc)
    requires DiskInv(h, d, log, torn) && HandleInv(d, s, log) && x in s.refs && s.refs[x] == loc
    ensures x !in LogKeys(PackedLog(d)) && x !in d.objects && RangeHolds(h, loc, sources, x) ==>
      GetStep(h, d, s, sources, x).0 == Ok(Some(sources[loc.path][loc.offset..loc.offset + loc.length]))
  {
    hide PackedLog, GetStep, LogKeys, DiskInv, HandleInv, ReadReference;
    PackedLogIs(h, d, log, torn);
    if x !in LogKeys(log) && x !in d.objects && RangeHolds(h, loc, sources, x) {
      NotPacked(h, d, s, sources, log, torn, x);
      RangeIsRead(h, s, loc, sources, x);
    }
  }

  ghost predicate RangeHolds(h: HashFn, loc: RefLoc, sources: Sources, x: Digest) {
    && loc.path in sources && loc.offset + loc.length <= |sources[loc.path]|
    && h(sources[loc.path][loc.offset..loc.offset + loc.length]) == x
  }

  lemma RangeIsRead(h: HashFn, s: Handle, loc: RefLoc, sources: Sources, x: Digest)
    requires x in s.refs && s.refs[x] == loc && RangeHolds(h, loc, sources, x)
    ensures ReadReference(h, s, sources, x) == Ok(Some(sources[loc.path][loc.offset..loc.offset + loc.length]))
  {
    assert loc.length == 0 ==> sources[loc.path][loc.offset..loc.offset + loc.length] == [];
  }

  lemma LastIsLoaded(text: Bytes, x: Digest, loc: RefLoc)
    requires LastSpelled(text, x, loc)
    ensures var all := InsertRefs(References(text), map[]); x in all && all[x] == loc
  {
    hide References, InsertRefs, RefKeys;
    var i: nat :| LastWith(References(text), x, i) && References(text)[i].loc == loc;
    InsertRefsMeaning(References(text), map[], x);
  }
}
