/** A manifest built from files: what it lists, that it validates, and that any source of the
    right chunks gives the files back. */
module BuildTheorems {
  import opened Basics
  import opened Merkle
  import opened Manifests
  import opened ManifestTheorems

  /** All pieces of all files, in order. */
  function PiecesOf(cut: Chunker, files: seq<File>): seq<Bytes> {
    if files == [] then [] else PiecesOf(cut, files[..|files| - 1]) + cut(files[|files| - 1].1)
  }

  ghost predicate RefsMatch(h: HashFn, refs: seq<ChunkRef>, pieces: seq<Bytes>) {
    |refs| == |pieces| && forall i :: 0 <= i < |refs| ==> refs[i].hash == h(pieces[i]) && refs[i].length == |pieces[i]|
  }

  lemma {:induction false} ChunkRefsMatch(h: HashFn, pieces: seq<Bytes>, base: nat)
    ensures RefsMatch(h, ChunkRefs(h, pieces, base), pieces)
  {
    if pieces != [] {
      ChunkRefsMatch(h, pieces[..|pieces| - 1], base);
    }
  }

  lemma {:induction false} RefsLengthSum(h: HashFn, refs: seq<ChunkRef>, pieces: seq<Bytes>)
    requires RefsMatch(h, refs, pieces)
    ensures LengthSum(refs) == |Flatten(pieces)|
  {
    if pieces != [] {
      var n := |pieces|;
      RefsLengthSum(h, refs[..n - 1], pieces[..n - 1]);
      FlattenSnoc(pieces[..n - 1], pieces[n - 1]);
      assert pieces[..n - 1] + [pieces[n - 1]] == pieces;
    }
  }

  lemma {:induction false} BuildMatches(h: HashFn, cut: Chunker, files: seq<File>)
    ensures RefsMatch(h, Build(h, cut, files).chunks, PiecesOf(cut, files))
    ensures |Build(h, cut, files).entries| == |files|
  {
    if files != [] {
      BuildMatches(h, cut, files[..|files| - 1]);
      ChunkRefsMatch(h, cut(files[|files| - 1].1), Build(h, cut, files[..|files| - 1]).size);
    }
  }

  lemma {:induction false} PiecesFlatten(cut: Chunker, files: seq<File>)
    requires CutsTile(cut)
    ensures Flatten(PiecesOf(cut, files)) == Contents(files)
    ensures forall i :: 0 <= i < |PiecesOf(cut, files)| ==> 0 < |PiecesOf(cut, files)[i]| <= MAX_CHUNK
  {
    if files != [] {
      var last := files[|files| - 1].1;
      PiecesFlatten(cut, files[..|files| - 1]);
      FlattenAppend(PiecesOf(cut, files[..|files| - 1]), cut(last));
      assert Tiles(cut(last), last);
    }
  }

  lemma {:induction false} NonEmptyCount(pieces: seq<Bytes>)
    requires forall i :: 0 <= i < |pieces| ==> 0 < |pieces[i]|
    ensures |pieces| <= |Flatten(pieces)|
  {
    if pieces != [] {
      NonEmptyCount(pieces[1..]);
    }
  }

  /** Entry `k` of a built manifest covers exactly the pieces of file `k`. */
  ghost predicate EntryOf(cut: Chunker, files: seq<File>, e: FileEntry, k: nat)
    requires k < |files|
  {
    && e.path == files[k].0 && e.size == |files[k].1|
    && e.chunkStart == |PiecesOf(cut, files[..k])|
    && e.chunkCount == |cut(files[k].1)|
  }

  lemma {:induction false} BuildEntry(h: HashFn, cut: Chunker, files: seq<File>, k: nat)
    requires k < |files|
    ensures |Build(h, cut, files).entries| == |files|
    ensures EntryOf(cut, files, Build(h, cut, files).entries[k], k)
  {
    hide PiecesOf;
    var n := |files|;
    var before := files[..n - 1];
    BuildMatches(h, cut, before);
    if k < n - 1 {
      BuildEntry(h, cut, before, k);
      assert before[..k] == files[..k];
    }
  }

  lemma {:induction false} BuildSizes(h: HashFn, cut: Chunker, files: seq<File>)
    ensures var b := Build(h, cut, files);
      && b.size == |Contents(files)| == SizeSum(b.entries)
      && CountSum(b.entries) == |PiecesOf(cut, files)|
      && |b.entries| == |files|
  {
    if files != [] {
      BuildSizes(h, cut, files[..|files| - 1]);
      var b := Build(h, cut, files);
      assert b.entries[..|b.entries| - 1] == Build(h, cut, files[..|files| - 1]).entries;
    }
  }

  lemma {:induction false} PiecesPrefix(cut: Chunker, files: seq<File>, k: nat)
    requires k < |files|
    ensures var lo := |PiecesOf(cut, files[..k])|;
      lo + |cut(files[k].1)| <= |PiecesOf(cut, files)|
        && PiecesOf(cut, files)[lo..lo + |cut(files[k].1)|] == cut(files[k].1)
  {
    var n := |files|;
    if k < n - 1 {
      PiecesPrefix(cut, files[..n - 1], k);
      assert files[..n - 1][..k] == files[..k];
      PrefixSlice(PiecesOf(cut, files[..n - 1]), cut(files[n - 1].1), |PiecesOf(cut, files[..k])|, |cut(files[k].1)|);
    }
  }

  lemma PrefixSlice<T>(a: seq<T>, b: seq<T>, lo: nat, n: nat)
    requires lo + n <= |a|
    ensures (a + b)[lo..lo + n] == a[lo..lo + n]
  {
  }

  lemma {:induction false} CountSumPrefix(files: seq<FileEntry>, k: nat)
    requires k < |files|
    ensures CountSum(files[..k + 1]) == CountSum(files[..k]) + files[k].chunkCount
  {
    assert files[..k + 1][..k] == files[..k];
  }

  lemma {:induction false} StartsAreCounts(h: HashFn, cut: Chunker, files: seq<File>, k: nat)
    requires k <= |files|
    ensures |Build(h, cut, files).entries| == |files|
    ensures CountSum(Build(h, cut, files).entries[..k]) == |PiecesOf(cut, files[..k])|
  {
    hide Build;
    BuildSizes(h, cut, files);
    if k > 0 {
      StartsAreCounts(h, cut, files, k - 1);
      CountSumPrefix(Build(h, cut, files).entries, k - 1);
      BuildEntry(h, cut, files, k - 1);
      assert files[..k][..k - 1] == files[..k - 1];
      hide CountSum;
    }
  }

  lemma BuiltEntryFits(h: HashFn, cut: Chunker, files: seq<File>, name: Option<string>, k: nat)
    requires CutsTile(cut) && |Contents(files)| <= U64_MAX && k < |files|
    ensures |Build(h, cut, files).entries| == |files|
    ensures EntryFits(FromFiles(h, cut, files, name), k)
  {
    hide Build, PiecesOf, CountSum, LengthSum, Root;
    var m := FromFiles(h, cut, files, name);
    var pieces := PiecesOf(cut, files);
    BuildEntry(h, cut, files, k);
    BuildMatches(h, cut, files);
    StartsAreCounts(h, cut, files, k);
    PiecesPrefix(cut, files, k);
    PiecesFlatten(cut, files);
    NonEmptyCount(pieces);
    var e := m.files[k];
    var own := cut(files[k].1);
    assert Tiles(own, files[k].1);
    var slice := m.chunks[e.chunkStart..e.chunkStart + e.chunkCount];
    OwnRefsMatch(h, m.chunks, pieces, e.chunkStart, e.chunkCount);
    RefsLengthSum(h, slice, own);
    FileWithin(files, k);
  }

  lemma OwnRefsMatch(h: HashFn, refs: seq<ChunkRef>, pieces: seq<Bytes>, lo: nat, n: nat)
    requires RefsMatch(h, refs, pieces) && lo + n <= |pieces|
    ensures RefsMatch(h, refs[lo..lo + n], pieces[lo..lo + n])
  {
  }

  lemma {:induction false} FileWithin(files: seq<File>, k: nat)
    requires k < |files|
    ensures |files[k].1| <= |Contents(files)|
  {
    if k < |files| - 1 {
      FileWithin(files[..|files| - 1], k);
    }
  }

  /** A manifest built from files that fit an address space always validates, and its root commits
      to its own chunk list. */
  lemma BuiltManifestValid(h: HashFn, cut: Chunker, files: seq<File>, name: Option<string>)
    requires CutsTile(cut) && |Contents(files)| <= U64_MAX
    ensures Validate(FromFiles(h, cut, files, name)).Ok?
    ensures RootConsistent(h, FromFiles(h, cut, files, name))
  {
    hide Build, PiecesOf, LengthSum, Validate, Root, EntryFits;
    var m := FromFiles(h, cut, files, name);
    BuildSizes(h, cut, files);
    BuildMatches(h, cut, files);
    PiecesFlatten(cut, files);
    RefsLengthSum(h, m.chunks, PiecesOf(cut, files));
    forall k | 0 <= k < |m.files|
      ensures EntryFits(m, k)
    {
      BuiltEntryFits(h, cut, files, name, k);
    }
    ValidateMeaning(m);
  }

  // ---- where chunks lie in the stream ----

  lemma {:induction false} RefOffsets(h: HashFn, pieces: seq<Bytes>, base: nat, i: nat)
    requires i < |pieces|
    ensures ChunkRefs(h, pieces, base)[i].offset == base + |Flatten(pieces[..i])|
  {
    var before := pieces[..|pieces| - 1];
    if i < |before| {
      RefOffsets(h, before, base, i);
      assert before[..i] == pieces[..i];
    }
  }

  lemma {:induction false} BuildOffsets(h: HashFn, cut: Chunker, files: seq<File>, i: nat)
    requires CutsTile(cut) && i < |PiecesOf(cut, files)|
    ensures |Build(h, cut, files).chunks| == |PiecesOf(cut, files)|
    ensures Build(h, cut, files).chunks[i].offset == |Flatten(PiecesOf(cut, files)[..i])|
  {
    hide ChunkRefs, CutsTile;
    var n := |files| - 1;
    var before, own := files[..n], cut(files[n].1);
    var pieces := PiecesOf(cut, before);
    BuildMatches(h, cut, before);
    BuildMatches(h, cut, files);
    if i < |pieces| {
      BuildOffsets(h, cut, before, i);
      assert (pieces + own)[..i] == pieces[..i];
    } else {
      var j := i - |pieces|;
      BuildSizes(h, cut, before);
      PiecesFlatten(cut, before);
      RefOffsets(h, own, Build(h, cut, before).size, j);
      assert (pieces + own)[..i] == pieces + own[..j];
      FlattenAppend(pieces, own[..j]);
    }
  }

  lemma PieceSlice(pieces: seq<Bytes>, i: nat)
    requires i < |pieces|
    ensures var at := |Flatten(pieces[..i])|;
      && at + |pieces[i]| <= |Flatten(pieces)|
      && Flatten(pieces)[at..at + |pieces[i]|] == pieces[i]
      && |Flatten(pieces[..i + 1])| == at + |pieces[i]|
  {
    hide Flatten;
    var a, b := pieces[..i], pieces[i + 1..];
    assert pieces == (a + [pieces[i]]) + b && pieces[..i + 1] == a + [pieces[i]];
    FlattenSnoc(a, pieces[i]);
    FlattenAppend(a + [pieces[i]], b);
  }

  /** Every chunk a built manifest lists is found in the stream at its offset, with its length and its
      hash, and the chunks follow each other without gap. The manifest keeps the name it was given. */
  lemma BuiltChunk(h: HashFn, cut: Chunker, files: seq<File>, name: Option<string>, i: nat)
    requires CutsTile(cut) && i < |PiecesOf(cut, files)|
    ensures var m, pieces := FromFiles(h, cut, files, name), PiecesOf(cut, files);
      && m.name == name && |m.chunks| == |pieces|
      && var c := m.chunks[i];
      && c.offset == |Flatten(pieces[..i])| && c.length == |pieces[i]| && c.hash == h(pieces[i])
      && c.offset + c.length <= |Contents(files)|
      && Contents(files)[c.offset..c.offset + c.length] == pieces[i]
  {
    hide CutsTile, PiecesOf, Build, Contents, Flatten;
    BuildMatches(h, cut, files);
    BuildOffsets(h, cut, files, i);
    PiecesFlatten(cut, files);
    PieceSlice(PiecesOf(cut, files), i);
  }

  lemma BuiltName(h: HashFn, cut: Chunker, files: seq<File>, name: Option<string>)
    ensures FromFiles(h, cut, files, name).name == name
  {
    hide Build;
  }

  // ---- reading back ----

  /** `fetch` answers every chunk of the manifest with the given piece, and the hashes agree. */
  ghost predicate Supplies(h: HashFn, m: Manifest, fetch: Fetch, pieces: seq<Bytes>) {
    && |pieces| == |m.chunks|
    && forall i :: 0 <= i < |pieces| ==> fetch(m.chunks[i].hash) == Some(pieces[i]) && h(pieces[i]) == m.chunks[i].hash
  }

  lemma {:induction false} CollectSupplied(h: HashFn, m: Manifest, fetch: Fetch, pieces: seq<Bytes>, lo: nat, hi: nat)
    requires RootConsistent(h, m) && Supplies(h, m, fetch, pieces) && lo <= hi <= |pieces|
    ensures Collect(h, m, fetch, lo, hi) == Ok(Flatten(pieces[lo..hi]))
    decreases hi
  {
    hide VerifyChunk, RootConsistent;
    if lo < hi {
      CollectSupplied(h, m, fetch, pieces, lo, hi - 1);
      VerifyChunkIsCheap(h, m, hi - 1, pieces[hi - 1]);
      FlattenSnoc(pieces[lo..hi - 1], pieces[hi - 1]);
      assert pieces[lo..hi] == pieces[lo..hi - 1] + [pieces[hi - 1]];
    }
  }

  lemma CutFlattens(cut: Chunker, data: Bytes)
    requires CutsTile(cut)
    ensures Flatten(cut(data)) == data
  {
    assert Tiles(cut(data), data);
  }

  lemma {:induction false} CollectBuiltFiles(h: HashFn, cut: Chunker, files: seq<File>, name: Option<string>,
                      fetch: Fetch, n: nat)
    requires CutsTile(cut)
    requires Supplies(h, FromFiles(h, cut, files, name), fetch, PiecesOf(cut, files))
    requires n <= |files|
    ensures |FromFiles(h, cut, files, name).files| == |files|
    ensures CollectFiles(h, FromFiles(h, cut, files, name), fetch, n) == Ok(files[..n])
  {
    hide Build, PiecesOf, Collect, Root, Tiles;
    var m := FromFiles(h, cut, files, name);
    BuildMatches(h, cut, files);
    if n > 0 {
      CollectBuiltFiles(h, cut, files, name, fetch, n - 1);
      BuildEntry(h, cut, files, n - 1);
      PiecesPrefix(cut, files, n - 1);
      var e := m.files[n - 1];
      CollectSupplied(h, m, fetch, PiecesOf(cut, files), e.chunkStart, e.chunkStart + e.chunkCount);
      CutFlattens(cut, files[n - 1].1);
      assert files[..n] == files[..n - 1] + [files[n - 1]];
    }
  }

  /** Given every chunk, a manifest built from files reconstructs exactly those files. */
  lemma BuiltManifestRoundTrip(h: HashFn, cut: Chunker, files: seq<File>, name: Option<string>, fetch: Fetch)
    requires CutsTile(cut) && |Contents(files)| <= U64_MAX
    requires Supplies(h, FromFiles(h, cut, files, name), fetch, PiecesOf(cut, files))
    ensures ReconstructFiles(h, FromFiles(h, cut, files, name), fetch) == Ok(files)
  {
    hide Build, PiecesOf, Validate, CollectFiles, Root;
    BuiltManifestValid(h, cut, files, name);
    CollectBuiltFiles(h, cut, files, name, fetch, |files|);
    assert files[..|files|] == files;
  }
}
