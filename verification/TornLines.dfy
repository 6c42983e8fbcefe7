/** Torn lines: what a crash inside the trim of an `open` may lose, what is lost when a handle that
    survived a crash appends behind a torn line, and that nothing is when no handle survives. */
module TornLines {
  import opened Basics
  import opened Text
  import opened IndexLog
  import opened RefLog
  import opened StoreSpec
  import opened StoreInvariant
  import opened StoreSteps
  import opened StoreTheorems

  // ---- a crash inside the trim ----

  /** Exactly which entries a crash inside the trim of an `open` keeps: those whose lines had been
      written again. It loses none if and only if all of them had been. */
  lemma TrimCrashKeeps(h: HashFn, states: seq<System>, acts: seq<Action>, n: nat)
    requires Run(h, states, acts) && n < |acts| && acts[n].CrashTrimming?
    ensures var log, log', kept := PackedLog(states[n].disk), PackedLog(states[n + 1].disk), |states[n + 1].disk.index|;
      && log' == log[..LinesWithin(log, kept)]
      && (log' == log <==> kept >= |Render(log)|)
  {
    hide PackedLog, Step, Render, Grown;
    RunStep(h, states, acts, n);
    var log, kept := PackedLog(states[n].disk), |states[n + 1].disk.index|;
    assert log[..|log|] == log;
    if log == [] {
      EmptyRender(log);
    }
  }

  /** What a crashing trim can make of the index: with a torn line, any beginning of the log and
      nothing else; without one, only the log itself. */
  lemma TrimOutcomes(h: HashFn, d: Disk, log: seq<IndexEntry>, torn: Bytes, k: nat)
    requires DiskInv(h, d, log, torn) && torn != [] && k <= |log|
    ensures exists d' :: TornTrim(d, d') && PackedLog(d') == log[..k]
  {
    hide Render, CompleteLength, LogInv, Entries;
    CompleteOfTorn(log, torn);
    TailOfIndex(log, k);
    var n := |Render(log[..k])|;
    var d' := d.(index := d.index[..n]);
    assert d.index[..n] == Render(log[..k]) by {
      RenderAppend(log[..k], log[k..]);
      assert log == log[..k] + log[k..];
    }
    assert TornTrim(d, d');
    LogAllRepresentable(h, d, log);
    EmptyTail(Render(log[..k]));
    CompleteIsRendered(log[..k], []);
    EntriesOfRendered(log[..k]);
  }

  /** Seen before the `open`: a crash inside its trim can lose a completed entry if and only if the
      index has a torn line and any completed entry at all. */
  lemma TrimMayLoseIff(h: HashFn, d: Disk, log: seq<IndexEntry>, torn: Bytes)
    requires DiskInv(h, d, log, torn)
    ensures (exists d' :: TornTrim(d, d') && PackedLog(d') != PackedLog(d)) <==> torn != [] && log != []
  {
    hide Render, LogInv, PackedLog, LinesWithin;
    PackedLogIs(h, d, log, torn);
    if torn != [] && log != [] {
      TrimOutcomes(h, d, log, torn, 0);
    }
    forall d' | TornTrim(d, d') && PackedLog(d') != PackedLog(d)
      ensures torn != [] && log != []
    {
      var torn' := TrimKeeps(h, d, d', log, torn);
      PackedLogIs(h, d', log[..LinesWithin(log, |d'.index|)], torn');
      if torn == [] {
        WholeIndexIsKept(h, d, d', log);
      }
    }
  }

  lemma WholeIndexIsKept(h: HashFn, d: Disk, d': Disk, log: seq<IndexEntry>)
    requires DiskInv(h, d, log, []) && TornTrim(d, d')
    ensures PackedLog(d') == PackedLog(d)
  {
    hide Render, LogInv, Entries, CompleteLength;
    UntornIffWhole(h, d, log, []);
    CompleteIsWhole(d.index);
  }

  /** The input: one chunk is packed, the next put crashes one byte into its index line, and so does
      the `open` after it, inside the trim. */
  ghost function TrimLossActs(): seq<Action> { [Open(0), Put(0, [1]), Crash(0, [2]), CrashTrimming] }

  /** The first chunk is packed, and what the crash leaves of the second. */
  ghost function OnePacked(h: HashFn): PutOut { PutStep(h, NEW_DISK, NEW_HANDLE, [1]) }

  ghost function Torn(h: HashFn): Disk
    requires Packs(h, OnePacked(h).disk, OnePacked(h).handle, [2])
  {
    var d, s := OnePacked(h).disk, OnePacked(h).handle;
    var w := WritePack(d, BeforeWrite(d, s, h([2])), [2]).disk;
    w.(index := w.index + FormatEntry(NewEntry(h, d, s, [2]))[..1])
  }

  lemma NewStore(h: HashFn)
    ensures Step(h, System(EMPTY_DISK, map[]), Open(0), System(NEW_DISK, map[0 := NEW_HANDLE]))
    ensures DiskInv(h, NEW_DISK, [], []) && HandleInv(NEW_DISK, NEW_HANDLE, [])
  {
    assert Render([]) == [];
    assert Opened(EMPTY_DISK, NEW_DISK, NEW_HANDLE);
    assert map[0 := NEW_HANDLE] == map[][0 := NEW_HANDLE];
    OpenKeeps(h, EMPTY_DISK, NEW_DISK, NEW_HANDLE, [], []);
  }

  lemma FirstPut(h: HashFn)
    ensures Packs(h, NEW_DISK, NEW_HANDLE, [1])
    ensures var e := NewEntry(h, NEW_DISK, NEW_HANDLE, [1]);
      && e.hash == h([1])
      && DiskInv(h, OnePacked(h).disk, [e], []) && HandleInv(OnePacked(h).disk, OnePacked(h).handle, [e])
      && OnePacked(h).disk.objects == map[] && OnePacked(h).disk.refs == []
      && OnePacked(h).handle.refs == map[] && OnePacked(h).handle.currentSize == 1 && OnePacked(h).handle.currentId == 0
      && 0 in OnePacked(h).disk.packs && |OnePacked(h).disk.packs[0]| == 1
  {
    hide FormatEntry, DiskInv, HandleInv;
    NewStore(h);
    assert Packs(h, NEW_DISK, NEW_HANDLE, [1]);
    PutPacks(h, NEW_DISK, NEW_HANDLE, [1], []);
    EmptyConcat([NewEntry(h, NEW_DISK, NEW_HANDLE, [1])]);
  }

  lemma SecondPut(h: HashFn)
    requires h([1]) != h([2])
    ensures Packs(h, OnePacked(h).disk, OnePacked(h).handle, [2])
    ensures WholeLines(OnePacked(h).disk.index)
  {
    hide FormatEntry, DiskInv, HandleInv, OnePacked, RefreshIndex, InsertAll;
    FirstPut(h);
    var d, s, e := OnePacked(h).disk, OnePacked(h).handle, NewEntry(h, NEW_DISK, NEW_HANDLE, [1]);
    HasKeeps(h, d, s, [e], [], h([2]));
    BeforeWriteKeeps(h, d, s, [e], [], h([2]));
    InsertKeys([e], map[]);
    assert LogKeys([e]) == {h([1])};
    UntornIffWhole(h, d, [e], []);
    KeepsCurrent(d, s, h([2]));
    assert References(Whole([])) == [];
  }

  ghost function TrimLossStates(h: HashFn): seq<System>
    requires Packs(h, OnePacked(h).disk, OnePacked(h).handle, [2])
  {
    [System(EMPTY_DISK, map[]), System(NEW_DISK, map[0 := NEW_HANDLE]),
     System(OnePacked(h).disk, map[0 := OnePacked(h).handle]), System(Torn(h), map[]),
       System(Torn(h).(index := []), map[])]
  }

  lemma TornShape(h: HashFn)
    requires h([1]) != h([2])
    ensures Packs(h, OnePacked(h).disk, OnePacked(h).handle, [2])
    ensures TornPut(h, OnePacked(h).disk, OnePacked(h).handle, [2], Torn(h))
    ensures PackedLog(Torn(h)) == [NewEntry(h, NEW_DISK, NEW_HANDLE, [1])]
    ensures TornTrim(Torn(h), Torn(h).(index := []))
  {
    hide DiskInv, HandleInv, OnePacked, WritePack, BeforeWrite, CompleteLength, Entries, Render, EntryText, Duplicate;
    FirstPut(h);
    SecondPut(h);
    var d, s, e := OnePacked(h).disk, OnePacked(h).handle, NewEntry(h, NEW_DISK, NEW_HANDLE, [1]);
    var f := NewEntry(h, d, s, [2]);
    assert TornPut(h, d, s, [2], Torn(h));
    WriteKeepsSidecars(d, BeforeWrite(d, s, h([2])), [2]);
    EntryTextIsOneLine(f);
    CutLine(f, 1);
    RenderedIndex(h, d, [e]);
    CompleteOfTorn([e], FormatEntry(f)[..1]);
    CompleteIsRendered([e], FormatEntry(f)[..1]);
    assert Torn(h).index[..0] == [];
  }

  lemma RenderedIndex(h: HashFn, d: Disk, log: seq<IndexEntry>)
    requires DiskInv(h, d, log, [])
    ensures d.index == Render(log) && Entries(Render(log)) == log
  {
    EmptyTail(Render(log));
    LogAllRepresentable(h, d, log);
    EntriesOfRendered(log);
  }

  /** It is a run, the chunk is in the log before the crashing trim, and gone after it. */
  lemma TrimLossReached(h: HashFn)
    requires h([1]) != h([2])
    ensures Packs(h, OnePacked(h).disk, OnePacked(h).handle, [2])
    ensures Run(h, TrimLossStates(h), TrimLossActs())
    ensures |PackedLog(TrimLossStates(h)[3].disk)| == 1 && PackedLog(TrimLossStates(h)[4].disk) == []
  {
    hide DiskInv, HandleInv, OnePacked, Torn, PackedLog, TornPut, TornTrim, Packs, Opened;
    NewStore(h);
    FirstPut(h);
    SecondPut(h);
    TornShape(h);
    NothingLeft(Torn(h));
    FirstStep(h);
    var states, acts := TrimLossStates(h), TrimLossActs();
    assert Survivors(states[2].handles, 0, map[]) && Survivors(states[3].handles, 0, map[]);
    forall i | 0 <= i < |acts|
      ensures Step(h, states[i], acts[i], states[i + 1]) && Orderly(h, states[i], acts[i], states[i + 1])
    {
    }
  }

  lemma FirstStep(h: HashFn)
    ensures Step(h, System(NEW_DISK, map[0 := NEW_HANDLE]), Put(0, [1]),
      System(OnePacked(h).disk, map[0 := OnePacked(h).handle]))
    ensures WholeLines(NEW_DISK.index)
  {
    hide PutStep;
    assert map[0 := NEW_HANDLE][0 := OnePacked(h).handle] == map[0 := OnePacked(h).handle];
  }

  lemma NothingLeft(d: Disk)
    ensures PackedLog(d.(index := [])) == []
  {
  }

  // ---- appending behind a torn line ----

  /** Why a torn line must be trimmed before anything is appended: whatever is appended behind it,
      the same chunk put again included, is lost with it, and the index reads as before both. */
  lemma TornLineSwallowsNext(log: seq<IndexEntry>, f: IndexEntry, n: nat, e: IndexEntry)
    requires AllRepresentable(log) && 0 < n <= |EntryText(f)|
    ensures Entries(Render(log) + (EntryText(f)[..n] + FormatEntry(e))) == log
  {
    hide Render, Entries, EntryText, ParseEntry, FirstLine;
    var torn := EntryText(f)[..n];
    EntriesAfterLog(log, torn + FormatEntry(e));
    MergedLine(f, n, e);
    MergedEntry(f, n, e);
    EntriesOfOneLine(torn + FormatEntry(e), torn + EntryText(e));
    EmptyTail(log);
  }

  lemma {:induction false} EntriesAfterLog(log: seq<IndexEntry>, rest: Bytes)
    requires AllRepresentable(log)
    ensures Entries(Render(log) + rest) == log + Entries(rest)
  {
    hide FormatEntry, EntryText, ParseEntry, FirstLine;
    if log == [] {
      EmptyConcat(rest);
      EmptyConcat(Entries(rest));
    } else {
      var e, tail := log[0], log[1..];
      assert log == [e] + tail;
      RenderAppend([e], tail);
      RenderOne(e);
      ConcatAssoc(FormatEntry(e), Render(tail), rest);
      FirstLineOf(e, Render(tail) + rest);
      ParseFormatted(e);
      EntriesAfterLog(tail, rest);
      ConcatAssoc([e], tail, Entries(rest));
      hide Render;
    }
  }

  lemma MergedLine(f: IndexEntry, n: nat, e: IndexEntry)
    requires 0 < n <= |EntryText(f)|
    ensures FirstLine(EntryText(f)[..n] + FormatEntry(e)) == (EntryText(f)[..n] + EntryText(e), [])
  {
    var torn, line := EntryText(f)[..n], EntryText(f)[..n] + EntryText(e);
    EntryTextIsOneLine(f);
    EntryTextIsOneLine(e);
    hide EntryText, Find;
    var text := torn + FormatEntry(e);
    assert text == line + [NEWLINE] + [];
    FindAfter(line, NEWLINE, []);
    assert text[..|line|] == line && text[|line| + 1..] == [];
    assert text[|line| - 1] == EntryText(e)[|EntryText(e)| - 1];
  }

  lemma EntriesOfOneLine(text: Bytes, line: Bytes)
    requires text != [] && FirstLine(text) == (line, []) && ParseEntry(line) == None
    ensures Entries(text) == []
  {
    hide FirstLine, ParseEntry;
    assert Entries([]) == [];
  }

  ghost function Tabs(s: Bytes): nat { multiset(s)[TAB] }

  lemma TabsAppend(a: Bytes, b: Bytes)
    ensures Tabs(a + b) == Tabs(a) + Tabs(b)
  {
  }

  lemma FieldTakesOneTab(s: Bytes)
    requires Field(s).Some?
    ensures Tabs(s) == 1 + Tabs(Field(s).value.1)
  {
    hide Find;
    var (a, b) := Field(s).value;
    assert s == a + ([TAB] + b);
    assert TAB !in multiset(a);
  }

  /** An entry is read only from a line with exactly three tabs. */
  lemma ParsedHasThreeTabs(line: Bytes)
    ensures ParseEntry(line).Some? ==> Tabs(line) == 3
  {
    hide FromHex, ParseUnsigned, Tabs, Field;
    if ParseEntry(line).Some? {
      var rest1 := Field(line).value.1;
      var rest2 := Field(rest1).value.1;
      var length := Field(rest2).value.1;
      FieldTakesOneTab(line);
      FieldTakesOneTab(rest1);
      FieldTakesOneTab(rest2);
      NumberHasNoTab(length);
    }
  }

  lemma NumberHasNoTab(s: Bytes)
    requires ParseUnsigned(s, U32_MAX).Some?
    ensures Tabs(s) == 0
  {
    hide DigitValue;
    var body := if s[0] == PLUS then s[1..] else s;
    DigitsHaveNo(body, TAB);
    assert s == [s[0]] + s[1..];
    assert TAB !in multiset(s);
  }

  lemma EntryHasThreeTabs(e: IndexEntry)
    ensures Tabs(EntryText(e)) >= 3
  {
    hide ToHex, Decimal, Tabs;
    var hash, pack, offset, length := ToHex(e.hash), Decimal(e.loc.pack), Decimal(e.loc.offset), Decimal(e.loc.length);
    OneTab();
    TabsAppend(offset + [TAB], length);
    TabsAppend(offset, [TAB]);
    TabsAppend(pack + [TAB], offset + [TAB] + length);
    TabsAppend(pack, [TAB]);
    TabsAppend(hash + [TAB], pack + [TAB] + (offset + [TAB] + length));
    TabsAppend(hash, [TAB]);
  }

  lemma OneTab()
    ensures Tabs([TAB]) == 1
  {
  }

  /** The merged line is no entry: its key is too long, or it has too many fields. */
  lemma MergedEntry(f: IndexEntry, n: nat, e: IndexEntry)
    requires 0 < n <= |EntryText(f)|
    ensures ParseEntry(EntryText(f)[..n] + EntryText(e)) == None
  {
    hide Find, FromHex, ToHex, ParseUnsigned, Decimal, AllHex, AllDigits, Tabs;
    var torn, line := EntryText(f)[..n], EntryText(f)[..n] + EntryText(e);
    HexHasNo(ToHex(f.hash), TAB);
    HexHasNo(ToHex(e.hash), TAB);
    if n <= 64 {
      var field := torn + ToHex(e.hash);
      assert torn == ToHex(f.hash)[..n];
      var rest := EntryText(e)[65..];
      assert line == field + [TAB] + rest;
      FieldOf(field, rest);
      WrongLength(field);
      hide Field;
    } else {
      hide Field, ParseEntry;
      TornTab(f, n);
      EntryHasThreeTabs(e);
      TabsAppend(torn, EntryText(e));
      ParsedHasThreeTabs(line);
    }
  }

  lemma TornTab(f: IndexEntry, n: nat)
    requires 64 < n <= |EntryText(f)|
    ensures Tabs(EntryText(f)[..n]) >= 1
  {
    hide ToHex, Decimal;
    var torn := EntryText(f)[..n];
    assert torn[64] == TAB;
    assert TAB in multiset(torn);
  }

  lemma WrongLength(s: Bytes)
    requires |s| != 64
    ensures FromHex(s) == None
  {
  }

  lemma ReadsPastMerged(log: seq<IndexEntry>, f: IndexEntry, n: nat, e: IndexEntry)
    requires AllRepresentable(log) && 0 < n <= |EntryText(f)|
    ensures var text := Render(log) + (EntryText(f)[..n] + FormatEntry(e));
      WholeLines(text) && Whole(text) == text && Entries(text) == log
  {
    TornLineSwallowsNext(log, f, n, e);
    hide Render, EntryText, Entries, CompleteLength;
    var text := Render(log) + (EntryText(f)[..n] + FormatEntry(e));
    assert text[|text| - 1] == NEWLINE;
    CompleteIsWhole(text);
  }

  /** The index after a `put` behind `torn`. */
  lemma PutBehind(h: HashFn, d: Disk, s: Handle, log: seq<IndexEntry>, torn: Bytes, bytes: Bytes)
    requires DiskInv(h, d, log, torn) && HandleInv(d, s, log) && Packs(h, d, s, bytes)
    ensures var out, e := PutStep(h, d, s, bytes), NewEntry(h, d, s, bytes);
      && out.result == Ok((h(bytes), true))
      && Representable(e.loc)
      && out.disk.index == Render(log) + (torn + FormatEntry(e))
      && out.disk.objects == d.objects && out.disk.refs == d.refs
      && h(bytes) in out.handle.index
      && out.handle.pos == |Render(log)| + |FormatEntry(e)|
  {
    hide PutStep, HasStep, BeforeWrite, WritePack, FormatEntry, Render, InsertAll, LogInv, RefsInv;
    var x := h(bytes);
    var s1 := BeforeWrite(d, s, x);
    PutShape(h, d, s, bytes);
    BeforeWriteKeeps(h, d, s, log, torn, x);
    WritePackEffect(d, s1, bytes);
    WrittenHeld(h, d, s1, bytes);
    ConcatAssoc(Render(log), torn, FormatEntry(NewEntry(h, d, s, bytes)));
  }

  /** A handle that survived a crash puts a chunk behind the torn line the crash left. The put
      reports success, the chunk joins the log if and only if there was no torn line, and the cursor
      of the handle stands at a line boundary if and only if there was none. */
  lemma PutBehindTorn(h: HashFn, d: Disk, s: Handle, log: seq<IndexEntry>, f: IndexEntry, n: nat, bytes: Bytes)
    requires n <= |EntryText(f)| && DiskInv(h, d, log, EntryText(f)[..n]) && HandleInv(d, s, log)
    requires Packs(h, d, s, bytes)
    ensures var out, e := PutStep(h, d, s, bytes), NewEntry(h, d, s, bytes);
      && out.result == Ok((h(bytes), true))
      && PackedLog(out.disk) == (if n == 0 then log + [e] else log)
      && 0 < out.handle.pos <= |out.disk.index|
      && (out.disk.index[out.handle.pos - 1] == NEWLINE <==> n == 0)
  {
    hide PutStep, Packs, NewEntry, FormatEntry, EntryText, Render, Entries, LogInv, CompleteLength, HandleInv;
    var out, e, torn := PutStep(h, d, s, bytes), NewEntry(h, d, s, bytes), EntryText(f)[..n];
    PutBehind(h, d, s, log, torn, bytes);
    LogAllRepresentable(h, d, log);
    if n == 0 {
      assert torn == [];
      EmptyConcat(FormatEntry(e));
      RenderSnoc(log, e);
      assert AllRepresentable(log + [e]);
      EntriesOfRendered(log + [e]);
      EmptyTail(Render(log + [e]));
      CompleteIsRendered(log + [e], []);
      RenderEndsLine(log + [e]);
    } else {
      ReadsPastMerged(log, f, n, e);
      InsideMerged(f, n, e);
      var merged := torn + FormatEntry(e);
      assert out.disk.index[out.handle.pos - 1] == merged[|FormatEntry(e)| - 1];
    }
  }

  lemma InsideMerged(f: IndexEntry, n: nat, e: IndexEntry)
    requires 0 < n <= |EntryText(f)|
    ensures |FormatEntry(e)| > 0 && (EntryText(f)[..n] + FormatEntry(e))[|FormatEntry(e)| - 1] != NEWLINE
  {
    EntryTextIsOneLine(f);
    EntryTextIsOneLine(e);
    hide EntryText;
    var torn, line := EntryText(f)[..n], FormatEntry(e);
    var i := |line| - 1;
    assert (torn + line)[i] == if i < n then torn[i] else line[i - n];
    assert i >= n ==> line[i - n] == EntryText(e)[i - n];
  }

  /** And no other handle finds it: not one that survived as well. */
  lemma SwallowedForOthers(h: HashFn, d: Disk, s: Handle, log: seq<IndexEntry>, f: IndexEntry, n: nat, bytes: Bytes,
                           t: Handle, sources: Sources)
    requires 0 < n <= |EntryText(f)| && DiskInv(h, d, log, EntryText(f)[..n]) && HandleInv(d, s, log)
    requires Packs(h, d, s, bytes) && HandleInv(d, t, log)
    ensures var d' := PutStep(h, d, s, bytes).disk;
      && !HasStep(d', t, h(bytes)).0
      && GetStep(h, d', t, sources, h(bytes)).0 == Ok(None)
  {
    var x, d', torn := h(bytes), PutStep(h, d, s, bytes).disk, EntryText(f)[..n];
    var e := NewEntry(h, d, s, bytes);
    PutBehind(h, d, s, log, torn, bytes);
    NotDuplicate(h, d, s, x, log, torn);
    LogAllRepresentable(h, d, log);
    IndexWithinLog(d, t, log);
    var k: nat :| InSync(t, log, k);
    RefreshPastMerged(d', t, log, k, f, n, e);
    InsertKeys(log, map[]);
    NotReferenced(h, t, sources, x);
    hide PutStep, RefreshIndex, DiskInv, InSync, InsertAll, EntryText, Render, ReadReference;
  }

  /** Nor one opened later. */
  lemma SwallowedForLater(h: HashFn, d: Disk, s: Handle, log: seq<IndexEntry>, f: IndexEntry, n: nat, bytes: Bytes,
                          d': Disk, t: Handle)
    requires 0 < n <= |EntryText(f)| && DiskInv(h, d, log, EntryText(f)[..n]) && HandleInv(d, s, log)
    requires Packs(h, d, s, bytes) && Opened(PutStep(h, d, s, bytes).disk, d', t)
    ensures t.index == InsertAll(log, map[])
    ensures !HasStep(d', t, h(bytes)).0
  {
    hide PutStep, EntryText, Render, FormatEntry, NewEntry, Packs, Entries, References, InsertAll, InsertRefs,
      CompleteLength, LogInv;
    var x, e := h(bytes), NewEntry(h, d, s, bytes);
    PutBehind(h, d, s, log, EntryText(f)[..n], bytes);
    assert !Duplicate(d, s, x) by { PackedNotDuplicate(h, d, s, bytes); }
    NotDuplicate(h, d, s, x, log, EntryText(f)[..n]);
    LogAllRepresentable(h, d, log);
    ReadsPastMerged(log, f, n, e);
    InsertKeys(log, map[]);
    InsertRefsKeys(References(d'.refs), map[]);
  }

  lemma PackedNotDuplicate(h: HashFn, d: Disk, s: Handle, bytes: Bytes)
    requires Packs(h, d, s, bytes)
    ensures !Duplicate(d, s, h(bytes))
  {
  }

  lemma RefreshPastMerged(d: Disk, t: Handle, log: seq<IndexEntry>, k: nat, f: IndexEntry, n: nat, e: IndexEntry)
    requires AllRepresentable(log) && InSync(t, log, k) && 0 < n <= |EntryText(f)|
    requires d.index == Render(log) + (EntryText(f)[..n] + FormatEntry(e))
    ensures RefreshIndex(d, t).index == InsertAll(log, map[]) && RefreshIndex(d, t).refs == t.refs
  {
    hide Render, InsertAll, Entries, CompleteLength, EntryText, FormatEntry;
    var merged, rest := EntryText(f)[..n] + FormatEntry(e), log[k..];
    TailOfIndex(log, k);
    assert d.index[t.pos..] == Render(rest) + merged;
    ReadsPastMerged(rest, f, n, e);
    CompleteIsWhole(d.index[t.pos..]);
    InsertAppend(log[..k], rest, map[]);
    assert log == log[..k] + rest;
  }

  // ---- no survivors, no torn line in anybody's way ----

  /** Any handle there is finds both files whole. */
  ghost predicate Quiet(a: System) {
    a.handles != map[] ==> WholeLines(a.disk.index) && WholeLines(a.disk.refs)
  }

  ghost predicate IsCrash(act: Action) { act.Crash? || act.CrashReferring? || act.CrashTrimming? }

  lemma QuietStep(h: HashFn, a: System, act: Action, b: System)
    requires Quiet(a) && Step(h, a, act, b) && (IsCrash(act) ==> b.handles == map[])
    ensures Orderly(h, a, act, b) && Quiet(b)
  {
    hide HasStep, GetStep, BeforeWrite, WritePack, CompleteLength, Render, InsertAll, Entries, References, InsertRefs,
      EntryText, RefText,
      HighestPack;
    match act
    case Open(id) =>
      CompleteIsWhole(a.disk.index);
      CompleteIsWhole(a.disk.refs);
      hide Whole;
    case Put(id, bytes) =>
      PutEndsLine(h, a.disk, a.handles[id], bytes);
      hide PutStep;
    case Refer(id, r) =>
    case Close(id) =>
    case Has(id, x) =>
    case Get(id, x, sources) =>
    case Crash(id, bytes) =>
      if a.disk != b.disk {
        assert id in a.handles;
      }
    case CrashReferring(id, r) =>
      assert id in a.handles;
    case CrashTrimming =>
  }

  lemma PutEndsLine(h: HashFn, d: Disk, s: Handle, bytes: Bytes)
    requires WholeLines(d.index)
    ensures var out := PutStep(h, d, s, bytes); WholeLines(out.disk.index) && out.disk.refs == d.refs
  {
    PutShape(h, d, s, bytes);
    WriteKeepsSidecars(d, BeforeWrite(d, s, h(bytes)), bytes);
    hide PutStep, HasStep, BeforeWrite, WritePack, EntryText;
  }

  lemma WriteKeepsSidecars(d: Disk, s: Handle, bytes: Bytes)
    ensures var w := WritePack(d, s, bytes).disk; w.index == d.index && w.refs == d.refs
  {
  }

  /** If every crash takes every handle with it, the steps are an orderly run: all that is proved of
      runs holds of them with no further condition. */
  lemma TotalCrashesAreOrderly(h: HashFn, states: seq<System>, acts: seq<Action>)
    requires Steps(h, states, acts)
    requires forall i :: 0 <= i < |acts| && IsCrash(acts[i]) ==> states[i + 1].handles == map[]
    ensures Run(h, states, acts)
    ensures forall i :: 0 <= i < |states| ==> Quiet(states[i])
  {
    hide Step, Orderly, Quiet;
    forall i | 0 <= i < |states|
      ensures Quiet(states[i])
    {
      AllQuiet(h, states, acts, i);
    }
    forall i | 0 <= i < |acts|
      ensures Orderly(h, states[i], acts[i], states[i + 1])
    {
      QuietStep(h, states[i], acts[i], states[i + 1]);
    }
  }

  lemma {:induction false} AllQuiet(h: HashFn, states: seq<System>, acts: seq<Action>, n: nat)
    requires Steps(h, states, acts) && n < |states|
    requires forall i :: 0 <= i < |acts| && IsCrash(acts[i]) ==> states[i + 1].handles == map[]
    ensures Quiet(states[n])
  {
    hide Step, Orderly;
    if n > 0 {
      AllQuiet(h, states, acts, n - 1);
      QuietStep(h, states[n - 1], acts[n - 1], states[n]);
    }
  }

  /** Opening heals: whoever survived, both files are whole again and the run goes on orderly. */
  lemma OpenHeals(h: HashFn, a: System, id: nat, b: System)
    requires Step(h, a, Open(id), b)
    ensures WholeLines(b.disk.index) && WholeLines(b.disk.refs) && PackedLog(b.disk) == PackedLog(a.disk)
  {
    hide CompleteLength, Entries, References, InsertAll, InsertRefs, HighestPack;
    CompleteIsWhole(a.disk.index);
    CompleteIsWhole(a.disk.refs);
    CompleteIsWhole(b.disk.index);
  }
}
