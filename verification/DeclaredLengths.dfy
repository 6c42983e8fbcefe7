/** What a manifest's declared lengths decide: nothing for the whole-stream route, everything for
    the file-by-file one. */
module DeclaredLengths {
  import opened Basics
  import opened Merkle
  import opened Manifests
  import opened BuildTheorems

  /** Two one-chunk files whose declared lengths are swapped. */
  ghost function Swapped(h: HashFn): Manifest {
    var chunks := [ChunkRef(h([1]), 0, 2), ChunkRef(h([2, 3]), 2, 1)];
    Manifest(Root(h, Hashes(chunks)), 3, chunks, [FileEntry("a", 2, 0, 1), FileEntry("b", 1, 1, 1)], None)
  }

  lemma SwappedValid(h: HashFn)
    ensures Validate(Swapped(h)) == Ok(())
  {
    hide Root;
    var m := Swapped(h);
    var a, b := m.chunks[0], m.chunks[1];
    assert m.chunks[0..1] == [a] && m.chunks[1..2] == [b];
    assert LengthSum([a]) == 2 && LengthSum([b]) == 1 by { assert [a][..0] == [] && [b][..0] == []; }
    assert m.chunks[..1] == [a];
    assert LengthSum(m.chunks) == 3;
    assert CheckEntries(m, 1) == Ok(1) by { assert CheckEntries(m, 0) == Ok(0); }
    assert CheckEntries(m, 2) == Ok(2);
    assert m.files[..1] == [m.files[0]] && m.files[..1][..0] == [];
    assert SizeSum(m.files) == 3;
  }

  lemma StreamWithoutFiles(h: HashFn, fetch: Fetch)
    requires fetch(h([1])) == Some([1]) && fetch(h([2, 3])) == Some([2, 3])
    ensures Reconstruct(h, Swapped(h), fetch) == Ok([1, 2, 3])
    ensures ReconstructFiles(h, Swapped(h), fetch) == Err(SizeMismatch(1, 2))
  {
    hide Root, Validate, VerifyChunk;
    var m := Swapped(h);
    SwappedValid(h);
    var pieces: seq<Bytes> := [[1], [2, 3]];
    assert RootConsistent(h, m);
    assert Supplies(h, m, fetch, pieces);
    CollectSupplied(h, m, fetch, pieces, 0, 2);
    CollectSupplied(h, m, fetch, pieces, 0, 1);
    assert pieces[0..2] == pieces && pieces[0..1] == [pieces[0]];
    FlattenSnoc([pieces[0]], pieces[1]);
    FlattenSnoc([], pieces[0]);
    EmptyConcat([pieces[0]]);
    EmptyConcat(pieces[0]);
    assert [pieces[0]] + [pieces[1]] == pieces;
    assert Flatten(pieces) == [1, 2, 3];
    assert m.chunks == [m.chunks[0], m.chunks[1]] && m.totalSize == 3;
    assert CollectFiles(h, m, fetch, 1) == Err(SizeMismatch(1, 2));
  }

  lemma {:induction false} CollectPart(h: HashFn, m: Manifest, fetch: Fetch, i: nat, n: nat)
    requires i < n <= |m.chunks| && Collect(h, m, fetch, 0, n).Ok?
    ensures FetchChunk(h, m, fetch, i).Ok?
  {
    hide FetchChunk;
    if i < n - 1 {
      CollectPart(h, m, fetch, i, n - 1);
    }
  }

  lemma {:induction false} CollectRange(h: HashFn, m: Manifest, fetch: Fetch, lo: nat, hi: nat)
    requires lo <= hi <= |m.chunks| && Collect(h, m, fetch, 0, |m.chunks|).Ok?
    ensures Collect(h, m, fetch, lo, hi).Ok?
    decreases hi
  {
    hide FetchChunk;
    if lo < hi {
      CollectRange(h, m, fetch, lo, hi - 1);
      CollectPart(h, m, fetch, hi - 1, |m.chunks|);
    }
  }

  /** How many bytes the chunks `lo..hi` really hold. */
  function TrueSum(m: Manifest, fetch: Fetch, lo: nat, hi: nat): nat
    requires lo <= hi <= |m.chunks|
    decreases hi
  {
    if lo == hi then 0
    else
      TrueSum(m, fetch, lo, hi - 1) +
      match fetch(m.chunks[hi - 1].hash) case None => 0 case Some(bytes) => |bytes|
  }

  lemma {:induction false} CollectLength(h: HashFn, m: Manifest, fetch: Fetch, lo: nat, hi: nat)
    requires lo <= hi <= |m.chunks| && Collect(h, m, fetch, lo, hi).Ok?
    ensures |Collect(h, m, fetch, lo, hi).value| == TrueSum(m, fetch, lo, hi)
    decreases hi
  {
    hide VerifyChunk;
    if lo < hi {
      CollectLength(h, m, fetch, lo, hi - 1);
    }
  }

  ghost predicate TrueSize(m: Manifest, fetch: Fetch, e: FileEntry) {
    e.chunkStart + e.chunkCount <= |m.chunks| && TrueSum(m, fetch, e.chunkStart, e.chunkStart + e.chunkCount) == e.size
  }

  lemma {:induction false} FilesNeedTrueSizes(h: HashFn, m: Manifest, fetch: Fetch, n: nat)
    requires n <= |m.files| && Collect(h, m, fetch, 0, |m.chunks|).Ok?
    ensures CollectFiles(h, m, fetch, n).Ok? <==> forall k :: 0 <= k < n ==> TrueSize(m, fetch, m.files[k])
  {
    hide Collect, TrueSum;
    if n > 0 {
      FilesNeedTrueSizes(h, m, fetch, n - 1);
      var e := m.files[n - 1];
      if e.chunkStart + e.chunkCount <= |m.chunks| {
        CollectRange(h, m, fetch, e.chunkStart, e.chunkStart + e.chunkCount);
        CollectLength(h, m, fetch, e.chunkStart, e.chunkStart + e.chunkCount);
      }
    }
  }

  /** When the stream comes out, the files do too exactly when every file's chunks really hold as
      many bytes as it declares: the hash checks alone do not decide it. */
  lemma FilesFromStream(h: HashFn, m: Manifest, fetch: Fetch)
    requires Reconstruct(h, m, fetch).Ok?
    ensures ReconstructFiles(h, m, fetch).Ok? <==> forall k :: 0 <= k < |m.files| ==> TrueSize(m, fetch, m.files[k])
  {
    hide Collect, CollectFiles, Validate, TrueSize;
    FilesNeedTrueSizes(h, m, fetch, |m.files|);
  }

  // ---- a wrong total ----

  /** One chunk of one byte, declared to be two long. */
  function Mislabelled(h: HashFn): Manifest {
    var chunks := [ChunkRef(h([1]), 0, 2)];
    Manifest(Root(h, Hashes(chunks)), 2, chunks, [FileEntry("a", 2, 0, 1)], None)
  }

  lemma MislabelledValid(h: HashFn)
    ensures Validate(Mislabelled(h)) == Ok(()) && RootConsistent(h, Mislabelled(h))
  {
    hide Root;
    var m := Mislabelled(h);
    assert m.chunks[0..1] == m.chunks && m.chunks[..0] == [] && m.files[..0] == [];
    assert LengthSum(m.chunks) == 2 && SizeSum(m.files) == 2;
    assert CheckEntries(m, 0) == Ok(0);
    assert CheckEntries(m, 1) == Ok(1);
  }

  /** It validates and commits to its chunk, and given that chunk it cannot be reconstructed. */
  lemma MislabelledFails(h: HashFn, fetch: Fetch)
    requires fetch(h([1])) == Some([1])
    ensures Reconstruct(h, Mislabelled(h), fetch) == Err(SizeMismatch(1, 2))
  {
    hide Root, Validate, VerifyChunk, RootConsistent;
    var m := Mislabelled(h);
    MislabelledValid(h);
    var pieces: seq<Bytes> := [[1]];
    assert Supplies(h, m, fetch, pieces);
    CollectSupplied(h, m, fetch, pieces, 0, 1);
    assert pieces[0..1] == [] + [pieces[0]];
    FlattenSnoc([], pieces[0]);
    EmptyConcat(pieces[0]);
  }
}
