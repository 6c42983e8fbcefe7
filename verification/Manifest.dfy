/** Manifests (crates/np2ptp-core/src/manifest.rs): building one from files, validating a
    peer-supplied one, and the three ways of getting bytes back out. Each loop of the code is a
    method proved against a function; the theorems are in ManifestTheorems. */
module Manifests {
  import opened Basics
  import opened Merkle

  datatype ChunkRef = ChunkRef(hash: Digest, offset: nat, length: nat)
  datatype FileEntry = FileEntry(path: string, size: nat, chunkStart: nat, chunkCount: nat)
  datatype Manifest = Manifest(root: Digest, totalSize: nat, chunks: seq<ChunkRef>, files: seq<FileEntry>,
    name: Option<string>)

  datatype Flaw = RangesMustTile | NonEmptyFileWithoutChunks | RangeOverflows | RangeOutOfBounds | SizesExceedStream
  datatype ManifestError = BadChunk(index: nat) | SizeMismatch(got: nat, expected: nat) | Invalid(flaw: Flaw)

  type Outcome<T> = Result<T, ManifestError>
  type File = (string, Bytes)
  type Fetch = Digest -> Option<Bytes>
  /** The content-defined chunker, as the pieces it cuts. */
  type Chunker = Bytes -> seq<Bytes>

  const MAX_CHUNK: nat := 256 * 1024

  ghost predicate Tiles(pieces: seq<Bytes>, data: Bytes) {
    Flatten(pieces) == data && forall i :: 0 <= i < |pieces| ==> 0 < |pieces[i]| <= MAX_CHUNK
  }

  /** All that is assumed of the chunker: non-empty pieces of bounded size that tile the data. */
  ghost predicate CutsTile(cut: Chunker) {
    forall data :: Tiles(cut(data), data)
  }

  function Hashes(chunks: seq<ChunkRef>): (hs: seq<Digest>)
    ensures |hs| == |chunks|
    ensures forall i :: 0 <= i < |chunks| ==> hs[i] == chunks[i].hash
  {
    if chunks == [] then [] else Hashes(chunks[..|chunks| - 1]) + [chunks[|chunks| - 1].hash]
  }

  /** The exact sum of declared lengths. */
  function LengthSum(chunks: seq<ChunkRef>): nat {
    if chunks == [] then 0 else LengthSum(chunks[..|chunks| - 1]) + chunks[|chunks| - 1].length
  }

  function SizeSum(files: seq<FileEntry>): nat {
    if files == [] then 0 else SizeSum(files[..|files| - 1]) + files[|files| - 1].size
  }

  /** What a saturating u64 accumulator ends with. */
  function Clamp(n: nat): nat { Min(n, U64_MAX) }

  // ---- building ----

  datatype Built = Built(chunks: seq<ChunkRef>, entries: seq<FileEntry>, size: nat)

  function ChunkRefs(h: HashFn, pieces: seq<Bytes>, base: nat): (refs: seq<ChunkRef>)
    ensures |refs| == |pieces|
  {
    if pieces == [] then []
    else
      var before := pieces[..|pieces| - 1];
      var last := pieces[|pieces| - 1];
      ChunkRefs(h, before, base) + [ChunkRef(h(last), base + |Flatten(before)|, |last|)]
  }

  function Build(h: HashFn, cut: Chunker, files: seq<File>): Built {
    if files == [] then Built([], [], 0)
    else
      var b := Build(h, cut, files[..|files| - 1]);
      var (path, data) := files[|files| - 1];
      var refs := ChunkRefs(h, cut(data), b.size);
      Built(b.chunks + refs, b.entries + [FileEntry(path, |data|, |b.chunks|, |refs|)], b.size + |data|)
  }

  function FromFiles(h: HashFn, cut: Chunker, files: seq<File>, name: Option<string>): Manifest {
    var b := Build(h, cut, files);
    Manifest(Root(h, Hashes(b.chunks)), b.size, b.chunks, b.entries, name)
  }

  method PushChunks(h: HashFn, pieces: seq<Bytes>, base: nat) returns (refs: seq<ChunkRef>)
    ensures refs == ChunkRefs(h, pieces, base)
  {
    refs := [];
    var offset := base;
    for i := 0 to |pieces|
      invariant refs == ChunkRefs(h, pieces[..i], base)
      invariant offset == base + |Flatten(pieces[..i])|
    {
      assert pieces[..i + 1][..i] == pieces[..i] && pieces[..i + 1] == pieces[..i] + [pieces[i]];
      FlattenSnoc(pieces[..i], pieces[i]);
      refs := refs + [ChunkRef(h(pieces[i]), offset, |pieces[i]|)];
      offset := offset + |pieces[i]|;
    }
    assert pieces[..|pieces|] == pieces;
  }

  method BuildManifest(h: HashFn, cut: Chunker, files: seq<File>, name: Option<string>) returns (m: Manifest)
    ensures m == FromFiles(h, cut, files, name)
  {
    var chunks: seq<ChunkRef>, entries: seq<FileEntry>, offset: nat := [], [], 0;
    for i := 0 to |files|
      invariant Built(chunks, entries, offset) == Build(h, cut, files[..i])
    {
      assert files[..i + 1][..i] == files[..i];
      var (path, data) := files[i];
      var chunkStart := |chunks|;
      var refs := PushChunks(h, cut(data), offset);
      chunks := chunks + refs;
      entries := entries + [FileEntry(path, |data|, chunkStart, |chunks| - chunkStart)];
      offset := offset + |data|;
    }
    assert files[..|files|] == files;
    var root := MerkleRoot(h, Hashes(chunks));
    m := Manifest(root, offset, chunks, entries, name);
  }

  // ---- validation ----

  /** The check of one file entry, given where the previous one ended. */
  function CheckEntry(m: Manifest, entry: FileEntry, cursor: nat): (r: Outcome<nat>)
    ensures r.Ok? ==> cursor <= r.value <= |m.chunks|
  {
    var end := entry.chunkStart + entry.chunkCount;
    if entry.chunkStart != cursor then Err(Invalid(RangesMustTile))
    else if entry.chunkCount == 0 && entry.size != 0 then Err(Invalid(NonEmptyFileWithoutChunks))
    else if end > U64_MAX then Err(Invalid(RangeOverflows))
    else if end > |m.chunks| then Err(Invalid(RangeOutOfBounds))
    else
      var own := Clamp(LengthSum(m.chunks[entry.chunkStart..end]));
      if own != entry.size then Err(SizeMismatch(own, entry.size)) else Ok(end)
  }

  /** The checks of the first `n` file entries; on success, where they end. */
  function CheckEntries(m: Manifest, n: nat): (r: Outcome<nat>)
    requires n <= |m.files|
    ensures r.Ok? ==> r.value <= |m.chunks|
  {
    if n == 0 then Ok(0)
    else
      match CheckEntries(m, n - 1)
      case Err(e) => Err(e)
      case Ok(cursor) => CheckEntry(m, m.files[n - 1], cursor)
  }

  function Validate(m: Manifest): Outcome<()> {
    var chunkBytes := Clamp(LengthSum(m.chunks));
    if chunkBytes != m.totalSize then Err(SizeMismatch(chunkBytes, m.totalSize))
    else
      match CheckEntries(m, |m.files|)
      case Err(e) => Err(e)
      case Ok(cursor) =>
        if cursor != |m.chunks| then Err(Invalid(RangesMustTile))
        else
          var fileBytes := Clamp(SizeSum(m.files));
          if fileBytes != m.totalSize then Err(SizeMismatch(fileBytes, m.totalSize)) else Ok(())
  }

  method SaturatingLengths(chunks: seq<ChunkRef>) returns (total: nat)
    ensures total == Clamp(LengthSum(chunks))
  {
    total := 0;
    for i := 0 to |chunks|
      invariant total == Clamp(LengthSum(chunks[..i]))
    {
      assert chunks[..i + 1][..i] == chunks[..i];
      total := SatAdd(total, chunks[i].length);
    }
    assert chunks[..|chunks|] == chunks;
  }

  lemma {:induction false} FirstFailureStays(m: Manifest, n: nat, k: nat)
    requires n <= k <= |m.files| && CheckEntries(m, n).Err?
    ensures CheckEntries(m, k) == CheckEntries(m, n)
  {
    if n < k {
      FirstFailureStays(m, n, k - 1);
    }
  }

  method ValidateManifest(m: Manifest) returns (r: Outcome<()>)
    ensures r == Validate(m)
  {
    hide LengthSum;
    var chunkBytes := SaturatingLengths(m.chunks);
    if chunkBytes != m.totalSize {
      return Err(SizeMismatch(chunkBytes, m.totalSize));
    }
    var cursor, fileBytes := 0, 0;
    for i := 0 to |m.files|
      invariant CheckEntries(m, i) == Ok(cursor)
      invariant fileBytes == Clamp(SizeSum(m.files[..i]))
    {
      var entry := m.files[i];
      assert m.files[..i + 1][..i] == m.files[..i];
      if CheckEntries(m, i + 1).Err? {
        FirstFailureStays(m, i + 1, |m.files|);
      }
      if entry.chunkStart != cursor {
        return Err(Invalid(RangesMustTile));
      }
      if entry.chunkCount == 0 && entry.size != 0 {
        return Err(Invalid(NonEmptyFileWithoutChunks));
      }
      var end := entry.chunkStart + entry.chunkCount;
      if end > U64_MAX {
        return Err(Invalid(RangeOverflows));
      }
      if end > |m.chunks| {
        return Err(Invalid(RangeOutOfBounds));
      }
      var own := SaturatingLengths(m.chunks[entry.chunkStart..end]);
      if own != entry.size {
        return Err(SizeMismatch(own, entry.size));
      }
      cursor := end;
      fileBytes := SatAdd(fileBytes, entry.size);
    }
    assert m.files[..|m.files|] == m.files;
    if cursor != |m.chunks| {
      return Err(Invalid(RangesMustTile));
    }
    if fileBytes != m.totalSize {
      return Err(SizeMismatch(fileBytes, m.totalSize));
    }
    return Ok(());
  }

  // ---- verification of single chunks ----

  predicate RootConsistent(h: HashFn, m: Manifest) {
    Root(h, Hashes(m.chunks)) == m.root
  }

  predicate ChunkHashOk(h: HashFn, m: Manifest, index: nat, bytes: Bytes) {
    index < |m.chunks| && h(bytes) == m.chunks[index].hash
  }

  /** The check that rebuilds the whole tree for one chunk. */
  predicate VerifyChunk(h: HashFn, m: Manifest, index: nat, bytes: Bytes) {
    && index < |m.chunks|
    && h(bytes) == m.chunks[index].hash
    && var p := Proof(h, Hashes(m.chunks), index);
       p.Some? && Verify(h, m.chunks[index].hash, p.value, m.root)
  }

  // ---- reconstruction ----

  function FetchChunk(h: HashFn, m: Manifest, fetch: Fetch, i: nat): Outcome<Bytes>
    requires i < |m.chunks|
  {
    match fetch(m.chunks[i].hash)
    case None => Err(BadChunk(i))
    case Some(bytes) => if VerifyChunk(h, m, i, bytes) then Ok(bytes) else Err(BadChunk(i))
  }

  /** Chunks `lo..hi`, fetched, verified and concatenated; the first failure otherwise. */
  function Collect(h: HashFn, m: Manifest, fetch: Fetch, lo: nat, hi: nat): Outcome<Bytes>
    requires lo <= hi <= |m.chunks|
    decreases hi
  {
    if lo == hi then Ok([])
    else
      match Collect(h, m, fetch, lo, hi - 1)
      case Err(e) => Err(e)
      case Ok(bytes) =>
        match FetchChunk(h, m, fetch, hi - 1)
        case Err(e) => Err(e)
        case Ok(more) => Ok(bytes + more)
  }

  function Reconstruct(h: HashFn, m: Manifest, fetch: Fetch): Outcome<Bytes> {
    match Validate(m)
    case Err(e) => Err(e)
    case Ok(_) =>
      match Collect(h, m, fetch, 0, |m.chunks|)
      case Err(e) => Err(e)
      case Ok(out) => if |out| != m.totalSize then Err(SizeMismatch(|out|, m.totalSize)) else Ok(out)
  }

  /** One file; the bound check is the code's own, redundant once validated. */
  function CollectFile(h: HashFn, m: Manifest, fetch: Fetch, entry: FileEntry): Outcome<File> {
    var end := entry.chunkStart + entry.chunkCount;
    if end > |m.chunks| then Err(Invalid(RangeOutOfBounds))
    else
      match Collect(h, m, fetch, entry.chunkStart, end)
      case Err(e) => Err(e)
      case Ok(bytes) => if |bytes| != entry.size then Err(SizeMismatch(|bytes|, entry.size))
        else Ok((entry.path, bytes))
  }

  /** The first `n` files. */
  function CollectFiles(h: HashFn, m: Manifest, fetch: Fetch, n: nat): (r: Outcome<seq<File>>)
    requires n <= |m.files|
    ensures r.Ok? ==> |r.value| == n
  {
    if n == 0 then Ok([])
    else
      match CollectFiles(h, m, fetch, n - 1)
      case Err(e) => Err(e)
      case Ok(files) =>
        match CollectFile(h, m, fetch, m.files[n - 1])
        case Err(e) => Err(e)
        case Ok(f) => Ok(files + [f])
  }

  function ReconstructFiles(h: HashFn, m: Manifest, fetch: Fetch): Outcome<seq<File>> {
    match Validate(m)
    case Err(e) => Err(e)
    case Ok(_) => CollectFiles(h, m, fetch, |m.files|)
  }

  /** The first `n` files cut from a stream; where the cut stands is the sum of their sizes. */
  function SplitFiles(m: Manifest, data: Bytes, n: nat): (r: Outcome<seq<File>>)
    requires n <= |m.files|
    ensures r.Ok? ==> |r.value| == n && SizeSum(m.files[..n]) <= |data|
  {
    if n == 0 then Ok([])
    else
      match SplitFiles(m, data, n - 1)
      case Err(e) => Err(e)
      case Ok(files) =>
        assert m.files[..n][..n - 1] == m.files[..n - 1];
        var offset := SizeSum(m.files[..n - 1]);
        var end := offset + m.files[n - 1].size;
        if end > U64_MAX || end > |data| then Err(Invalid(SizesExceedStream))
        else Ok(files + [(m.files[n - 1].path, data[offset..end])])
  }

  function SplitStream(m: Manifest, data: Bytes): Outcome<seq<File>> {
    if |data| != m.totalSize then Err(SizeMismatch(|data|, m.totalSize))
    else
      match Validate(m)
      case Err(e) => Err(e)
      case Ok(_) => SplitFiles(m, data, |m.files|)
  }

  // ---- the loops of the three routes ----

  method CollectLoop(h: HashFn, m: Manifest, fetch: Fetch, lo: nat, hi: nat) returns (r: Outcome<Bytes>)
    requires lo <= hi <= |m.chunks|
    ensures r == Collect(h, m, fetch, lo, hi)
  {
    hide VerifyChunk;
    var out: Bytes := [];
    for i := lo to hi
      invariant Collect(h, m, fetch, lo, i) == Ok(out)
    {
      if FetchChunk(h, m, fetch, i).Err? {
        CollectFails(h, m, fetch, lo, i, hi);
      }
      var bytes := fetch(m.chunks[i].hash);
      if bytes.None? {
        return Err(BadChunk(i));
      }
      if !VerifyChunk(h, m, i, bytes.value) {
        return Err(BadChunk(i));
      }
      out := out + bytes.value;
    }
    return Ok(out);
  }

  lemma {:induction false} CollectFails(h: HashFn, m: Manifest, fetch: Fetch, lo: nat, i: nat, hi: nat)
    requires lo <= i < hi <= |m.chunks|
    requires Collect(h, m, fetch, lo, i).Ok? && FetchChunk(h, m, fetch, i).Err?
    ensures Collect(h, m, fetch, lo, hi) == Err(FetchChunk(h, m, fetch, i).error)
    decreases hi
  {
    hide FetchChunk;
    if i < hi - 1 {
      CollectFails(h, m, fetch, lo, i, hi - 1);
    }
  }

  method ReconstructStream(h: HashFn, m: Manifest, fetch: Fetch) returns (r: Outcome<Bytes>)
    ensures r == Reconstruct(h, m, fetch)
  {
    hide Validate, Collect;
    var valid := ValidateManifest(m);
    if valid.Err? {
      return Err(valid.error);
    }
    r := CollectLoop(h, m, fetch, 0, |m.chunks|);
    if r.Ok? && |r.value| != m.totalSize {
      return Err(SizeMismatch(|r.value|, m.totalSize));
    }
  }

  method ReconstructEachFile(h: HashFn, m: Manifest, fetch: Fetch) returns (r: Outcome<seq<File>>)
    ensures r == ReconstructFiles(h, m, fetch)
  {
    hide Validate, Collect;
    var valid := ValidateManifest(m);
    if valid.Err? {
      return Err(valid.error);
    }
    var out: seq<File> := [];
    for i := 0 to |m.files|
      invariant CollectFiles(h, m, fetch, i) == Ok(out)
    {
      var entry := m.files[i];
      if CollectFile(h, m, fetch, entry).Err? {
        CollectFilesFails(h, m, fetch, i, |m.files|);
      }
      if entry.chunkStart + entry.chunkCount > |m.chunks| {
        return Err(Invalid(RangeOutOfBounds));
      }
      var bytes := CollectLoop(h, m, fetch, entry.chunkStart, entry.chunkStart + entry.chunkCount);
      if bytes.Err? {
        return Err(bytes.error);
      }
      if |bytes.value| != entry.size {
        return Err(SizeMismatch(|bytes.value|, entry.size));
      }
      out := out + [(entry.path, bytes.value)];
    }
    return Ok(out);
  }

  lemma {:induction false} CollectFilesFails(h: HashFn, m: Manifest, fetch: Fetch, i: nat, n: nat)
    requires i < n <= |m.files|
    requires CollectFiles(h, m, fetch, i).Ok? && CollectFile(h, m, fetch, m.files[i]).Err?
    ensures CollectFiles(h, m, fetch, n) == Err(CollectFile(h, m, fetch, m.files[i]).error)
  {
    hide CollectFile;
    if i < n - 1 {
      CollectFilesFails(h, m, fetch, i, n - 1);
    }
  }

  method SplitIntoFiles(m: Manifest, data: Bytes) returns (r: Outcome<seq<File>>)
    ensures r == SplitStream(m, data)
  {
    hide Validate;
    if |data| != m.totalSize {
      return Err(SizeMismatch(|data|, m.totalSize));
    }
    var valid := ValidateManifest(m);
    if valid.Err? {
      return Err(valid.error);
    }
    var out: seq<File> := [];
    var offset := 0;
    for i := 0 to |m.files|
      invariant SplitFiles(m, data, i) == Ok(out)
      invariant offset == SizeSum(m.files[..i]) <= |data|
    {
      var entry := m.files[i];
      assert m.files[..i + 1][..i] == m.files[..i];
      var end := offset + entry.size;
      if end > U64_MAX || end > |data| {
        SplitFilesFails(m, data, i + 1, |m.files|);
        return Err(Invalid(SizesExceedStream));
      }
      out := out + [(entry.path, data[offset..end])];
      offset := end;
    }
    return Ok(out);
  }

  lemma {:induction false} SplitFilesFails(m: Manifest, data: Bytes, i: nat, n: nat)
    requires i <= n <= |m.files| && SplitFiles(m, data, i).Err?
    ensures SplitFiles(m, data, n) == SplitFiles(m, data, i)
  {
    if i < n {
      SplitFilesFails(m, data, i, n - 1);
    }
  }
}
