/** The store as objects: handles that share a directory and update it in place. Each method is
    proved to take exactly the step StoreSpec gives for it. */
module Stores {
  import opened Basics
  import opened Text
  import opened IndexLog
  import opened RefLog
  import opened StoreSpec

  class Directory {
    var packs: map<nat, Bytes>
    var index: Bytes
    var refs: Bytes
    var objects: map<Digest, Bytes>

    ghost function View(): Disk
      reads this
    {
      Disk(packs, index, refs, objects)
    }

    constructor (objects: map<Digest, Bytes>)
      ensures View() == Disk(map[], [], [], objects)
    {
      packs, index, refs := map[], [], [];
      this.objects := objects;
    }
  }

  /** `text.lines()` fed to the line parser, each entry inserted as it comes. */
  method AbsorbLines(text: Bytes, start: Index) returns (index: Index)
    ensures index == InsertAll(Entries(text), start)
  {
    hide ParseEntry, FirstLine;
    index := start;
    var rest := text;
    while rest != []
      invariant InsertAll(Entries(rest), index) == InsertAll(Entries(text), start)
      decreases |rest|
    {
      var (line, after) := FirstLine(rest);
      var parsed := ParseEntry(line);
      if parsed.Some? {
        var e := parsed.value;
        assert Entries(rest) == [e] + Entries(after);
        assert ([e] + Entries(after))[1..] == Entries(after);
        index := index[e.hash := e.loc];
      }
      rest := after;
    }
  }

  /** The same for reference lines. */
  method AbsorbRefs(text: Bytes, start: map<Digest, RefLoc>) returns (known: map<Digest, RefLoc>)
    ensures known == InsertRefs(References(text), start)
  {
    hide ParseRef, FirstLine;
    known := start;
    var rest := text;
    while rest != []
      invariant InsertRefs(References(rest), known) == InsertRefs(References(text), start)
      decreases |rest|
    {
      var (line, after) := FirstLine(rest);
      var parsed := ParseRef(line);
      if parsed.Some? {
        var r := parsed.value;
        assert References(rest) == [r] + References(after);
        assert ([r] + References(after))[1..] == References(after);
        known := known[r.hash := r.loc];
      }
      rest := after;
    }
  }

  /** `rfind('\n')`, as one past the newline, or 0. */
  method AfterLastNewline(text: Bytes) returns (n: nat)
    ensures n == CompleteLength(text)
  {
    n := |text|;
    while n > 0 && text[n - 1] != NEWLINE
      invariant n <= |text|
      invariant CompleteLength(text[..n]) == CompleteLength(text)
    {
      assert text[..n][..n - 1] == text[..n - 1] && text[..n][n - 1] == text[n - 1];
      n := n - 1;
    }
    assert n > 0 ==> text[..n][n - 1] == text[n - 1];
  }

  /** The highest pack id among the file names of the directory, 0 if there are none. */
  method FindHighest(packs: map<nat, Bytes>) returns (id: nat)
    ensures HighestPack(packs, id)
  {
    var todo := packs.Keys;
    var best: Option<nat> := None;
    while todo != {}
      invariant todo <= packs.Keys
      invariant best.None? <==> todo == packs.Keys
      invariant best.Some? ==> best.value in packs && forall j :: j in packs && j !in todo ==> j <= best.value
      decreases |todo|
    {
      var j :| j in todo;
      todo := todo - {j};
      best := Some(if best.Some? && best.value > j then best.value else j);
    }
    id := if best.Some? then best.value else 0;
  }

  class Store {
    const dir: Directory
    const h: HashFn
    var packIndex: Index
    var pos: nat
    var refs: map<Digest, RefLoc>
    var refsPos: nat
    var currentId: nat
    var currentSize: nat

    ghost function View(): Handle
      reads this
    {
      Handle(packIndex, pos, refs, refsPos, currentId, currentSize)
    }

    /** `Store::open`: trim the torn lines, load the index and references, resume the last pack. */
    constructor (dir: Directory, h: HashFn)
      modifies dir
      ensures this.dir == dir && this.h == h
      ensures Opened(old(dir.View()), dir.View(), View())
    {
      hide InsertAll, Entries, CompleteLength, InsertRefs, References, HighestPack;
      this.dir, this.h := dir, h;
      var n := AfterLastNewline(dir.index);
      if n != |dir.index| {
        dir.index := dir.index[..n];
      }
      assert dir.index == old(dir.index)[..n];
      var m := AfterLastNewline(dir.refs);
      if m != |dir.refs| {
        dir.refs := dir.refs[..m];
      }
      assert dir.refs == old(dir.refs)[..m];
      var index := AbsorbLines(dir.index, map[]);
      var known := AbsorbRefs(dir.refs, map[]);
      var id := FindHighest(dir.packs);
      var size := |PackBytes(Disk(dir.packs, [], [], map[]), id)|;
      if id !in dir.packs {
        dir.packs := dir.packs[id := []];
      }
      assert dir.packs == old(dir.packs)[id := PackBytes(old(dir.View()), id)];
      packIndex, pos := index, |dir.index|;
      refs, refsPos := known, |dir.refs|;
      currentId, currentSize := id, size;
    }

    method RefreshPackIndex()
      modifies this
      ensures View() == RefreshIndex(dir.View(), old(View()))
    {
      hide InsertAll, Entries, CompleteLength;
      if |dir.index| <= pos {
        return;
      }
      var tail := dir.index[pos..];
      var n := AfterLastNewline(tail);
      if n == 0 {
        assert tail[..0] == [] && Entries([]) == []
          && InsertAll([], packIndex) == packIndex by { NothingToAbsorb(packIndex); }
        return;
      }
      packIndex := AbsorbLines(tail[..n], packIndex);
      pos := pos + n;
    }

    static lemma NothingToAbsorb(index: Index)
      ensures Entries([]) == [] && InsertAll([], index) == index
    {
    }

    static lemma NothingToLearn(known: map<Digest, RefLoc>)
      ensures InsertRefs(References([]), known) == known
    {
    }

    method RefreshReferences()
      modifies this
      ensures View() == RefreshRefs(dir.View(), old(View()))
    {
      hide InsertRefs, References, CompleteLength;
      if |dir.refs| <= refsPos {
        return;
      }
      var tail := dir.refs[refsPos..];
      var n := AfterLastNewline(tail);
      if n == 0 {
        assert tail[..0] == [] && InsertRefs(References([]), refs) == refs by { NothingToLearn(refs); }
        return;
      }
      refs := AbsorbRefs(tail[..n], refs);
      refsPos := refsPos + n;
    }

    method Has(x: Digest) returns (found: bool)
      modifies this
      ensures (found, View()) == HasStep(dir.View(), old(View()), x)
    {
      hide RefreshIndex;
      if x in packIndex || x in dir.objects || x in refs {
        return true;
      }
      RefreshPackIndex();
      found := x in packIndex;
    }

    method Get(x: Digest, sources: Sources) returns (r: Result<Option<Bytes>, StoreError>)
      modifies this
      ensures (r, View()) == GetStep(h, dir.View(), old(View()), sources, x)
    {
      hide RefreshIndex, ReadIndexed, ReadReference;
      r := GetFromPackIndex(x);
      if r != Ok(None) {
        return;
      }
      if x in dir.objects {
        return if h(dir.objects[x]) != x then Err(Corrupt(x)) else Ok(Some(dir.objects[x]));
      }
      r := GetReference(x, sources);
      if r != Ok(None) {
        return;
      }
      RefreshPackIndex();
      r := GetFromPackIndex(x);
    }

    method GetFromPackIndex(x: Digest) returns (r: Result<Option<Bytes>, StoreError>)
      ensures r == ReadIndexed(h, dir.View(), View(), x)
    {
      if x !in packIndex {
        return Ok(None);
      }
      var loc := packIndex[x];
      if loc.pack !in dir.packs {
        return Err(Io);
      }
      var bytes := ReadRange(dir.packs[loc.pack], loc.offset, loc.length);
      if bytes.None? {
        return Err(Io);
      }
      return if h(bytes.value) != x then Err(Corrupt(x)) else Ok(bytes);
    }

    method GetReference(x: Digest, sources: Sources) returns (r: Result<Option<Bytes>, StoreError>)
      ensures r == ReadReference(h, View(), sources, x)
    {
      if x !in refs || refs[x].path !in sources {
        return Ok(None);
      }
      var bytes := ReadRange(sources[refs[x].path], refs[x].offset, refs[x].length);
      if bytes.None? {
        return Err(Io);
      }
      return if h(bytes.value) != x then Err(Corrupt(x)) else Ok(bytes);
    }

    /** `PackState::write`: the offset is the file's real end, not `currentSize`. */
    method AppendToPack(bytes: Bytes) returns (r: Result<PackLoc, StoreError>)
      modifies this, dir
      ensures Written(dir.View(), View(), r) == WritePack(old(dir.View()), old(View()), bytes)
    {
      if currentSize >= PACK_ROTATE_SIZE {
        if currentId >= U32_MAX {
          return Err(PackIdsExhausted);
        }
        currentId := currentId + 1;
        currentSize := 0;
      }
      var end := if currentId in dir.packs then dir.packs[currentId] else [];
      if |end| + |bytes| > U64_MAX {
        dir.packs := dir.packs[currentId := end];
        return Err(Io);
      }
      dir.packs := dir.packs[currentId := end + bytes];
      currentSize := |end| + |bytes|;
      return Ok(PackLoc(currentId, |end|, |bytes| % (U32_MAX + 1)));
    }

    method Put(bytes: Bytes) returns (r: Result<(Digest, bool), StoreError>)
      modifies this, dir
      ensures PutOut(dir.View(), View(), r) == PutStep(h, old(dir.View()), old(View()), bytes)
    {
      hide HasStep, RefreshIndex, RefreshRefs, WritePack, FormatEntry;
      var x := h(bytes);
      var found := Has(x);
      if found {
        return Ok((x, false));
      }
      RefreshPackIndex();
      RefreshReferences();
      if x in packIndex || x in dir.objects || x in refs {
        return Ok((x, false));
      }
      var loc := AppendToPack(bytes);
      if loc.Err? {
        return Err(loc.error);
      }
      var line := FormatEntry(IndexEntry(x, loc.value));
      dir.index := dir.index + line;
      packIndex := packIndex[x := loc.value];
      pos := pos + |line|;
      return Ok((x, true));
    }

    /** One chunk of a `--no-copy` ingest. */
    method AddReference(r: Reference)
      modifies this, dir
      ensures (dir.View(), View()) == ReferStep(old(dir.View()), old(View()), r)
    {
      hide HasStep, FormatRef;
      var _ := Has(r.hash);
      dir.refs := dir.refs + FormatRef(r);
      refs := refs[r.hash := r.loc];
    }
  }
}
