/** Torrent piece verification: the streaming verifier of crates/np2ptp-bridge/src/streaming.rs
    against the in-memory check of crates/np2ptp-bridge/src/lib.rs. */
module Pieces {
  import opened Basics

  /** A 20-byte SHA-1 value as a number, and SHA-1 as an arbitrary function to such values. */
  newtype PieceHash = x: int | 0 <= x < 0x1_0000000000_0000000000_0000000000_0000000000
  type PieceHashFn = Bytes -> PieceHash

  datatype BridgeError = PieceVerificationFailed | Source(name: string)

  /** Cutting `data` every `n` bytes, the last piece possibly short, gives exactly `hashes`. */
  predicate Accepts(sha: PieceHashFn, n: nat, data: Bytes, hashes: seq<PieceHash>)
    requires n > 0
    decreases |data|
  {
    if data == [] then hashes == []
    else
      && hashes != []
      && sha(data[..Min(n, |data|)]) == hashes[0]
      && Accepts(sha, n, data[Min(n, |data|)..], hashes[1..])
  }

  // ---- the same by index ----

  function PieceCount(n: nat, len: nat): nat
    requires n > 0
  {
    (len + n - 1) / n
  }

  ghost predicate MatchesAt(sha: PieceHashFn, n: nat, data: Bytes, hashes: seq<PieceHash>, i: nat)
    requires n > 0 && i < |hashes|
  {
    i * n < |data| && sha(data[i * n..Min(i * n + n, |data|)]) == hashes[i]
  }

  lemma PieceCountStep(n: nat, len: nat)
    requires n > 0 && len > 0
    ensures PieceCount(n, len) == 1 + PieceCount(n, len - Min(n, len))
  {
    DivStep(len - 1, n);
    if len <= n {
      DivUnique(len - 1, n, 0);
      PieceCountZero(n);
    }
  }

  lemma PieceCountZero(n: nat)
    requires n > 0
    ensures PieceCount(n, 0) == 0
  {
    DivUnique(n - 1, n, 0);
  }

  lemma MatchesAtNext(sha: PieceHashFn, n: nat, data: Bytes, hashes: seq<PieceHash>, i: nat)
    requires n > 0 && data != [] && i + 1 < |hashes|
    ensures MatchesAt(sha, n, data[Min(n, |data|)..], hashes[1..], i) <==> MatchesAt(sha, n, data, hashes, i + 1)
  {
    assert (i + 1) * n == i * n + n;
    if (i + 1) * n < |data| {
      assert data[n..][i * n..Min(i * n + n, |data| - n)] == data[(i + 1) * n..Min((i + 1) * n + n, |data|)];
    }
  }

  lemma MatchesAtFirst(sha: PieceHashFn, n: nat, data: Bytes, hashes: seq<PieceHash>)
    requires n > 0 && data != [] && hashes != []
    ensures MatchesAt(sha, n, data, hashes, 0) <==> sha(data[..Min(n, |data|)]) == hashes[0]
  {
    assert 0 * n == 0;
  }

  /** Repeated cutting says the same as: the piece count is right and every slice matches. */
  lemma {:induction false} AcceptsByIndex(sha: PieceHashFn, n: nat, data: Bytes, hashes: seq<PieceHash>)
    requires n > 0
    ensures Accepts(sha, n, data, hashes) <==>
      |hashes| == PieceCount(n, |data|) && forall i :: 0 <= i < |hashes| ==> MatchesAt(sha, n, data, hashes, i)
    decreases |data|
  {
    hide PieceCount;
    if data == [] {
      PieceCountZero(n);
    } else {
      PieceCountStep(n, |data|);
      hide MatchesAt;
      if hashes != [] {
        var rest, hs := data[Min(n, |data|)..], hashes[1..];
        AcceptsByIndex(sha, n, rest, hs);
        MatchesAtFirst(sha, n, data, hashes);
        forall i | 0 <= i < |hs|
          ensures MatchesAt(sha, n, rest, hs, i) <==> MatchesAt(sha, n, data, hashes, i + 1)
        {
          MatchesAtNext(sha, n, data, hashes, i);
        }
        assert forall i :: 0 < i < |hashes| ==>
          (MatchesAt(sha, n, rest, hs, i - 1) <==> MatchesAt(sha, n, data, hashes, i));
      }
    }
  }

  /** Every full piece of `data`, a beginning of the stream, has its hash. */
  predicate FullPieces(sha: PieceHashFn, n: nat, data: Bytes, hashes: seq<PieceHash>)
    requires n > 0
    decreases |data|
  {
    |data| >= n ==>
      hashes != [] && sha(data[..n]) == hashes[0] && FullPieces(sha, n, data[n..], hashes[1..])
  }

  function FullCount(n: nat, len: nat): nat
    requires n > 0
  {
    len / n
  }

  lemma FullCountStep(n: nat, len: nat)
    requires n > 0
    ensures FullCount(n, len) == if len < n then 0 else 1 + FullCount(n, len - n)
  {
    if len < n {
      DivUnique(len, n, 0);
    } else {
      DivStep(len - n, n);
    }
  }

  /** The same by index. */
  lemma {:induction false} FullPiecesByIndex(sha: PieceHashFn, n: nat, data: Bytes, hashes: seq<PieceHash>)
    requires n > 0
    ensures FullPieces(sha, n, data, hashes) <==>
      && FullCount(n, |data|) <= |hashes|
      && forall i :: 0 <= i < FullCount(n, |data|) ==> MatchesAt(sha, n, data, hashes, i)
    decreases |data|
  {
    hide MatchesAt, FullCount;
    FullCountStep(n, |data|);
    if |data| >= n && hashes != [] {
      var rest, hs := data[n..], hashes[1..];
      FullPiecesByIndex(sha, n, rest, hs);
      MatchesAtFirst(sha, n, data, hashes);
      forall i | 0 <= i < |hs|
        ensures MatchesAt(sha, n, rest, hs, i) <==> MatchesAt(sha, n, data, hashes, i + 1)
      {
        MatchesAtNext(sha, n, data, hashes, i);
      }
      assert forall i :: 0 < i < |hashes| ==>
        (MatchesAt(sha, n, rest, hs, i - 1) <==> MatchesAt(sha, n, data, hashes, i));
    }
  }

  // ---- the in-memory check ----

  function Concatenated(files: seq<(string, Bytes)>): Bytes {
    if files == [] then [] else files[0].1 + Concatenated(files[1..])
  }

  method Concatenate(files: seq<(string, Bytes)>) returns (data: Bytes)
    ensures data == Concatenated(files)
  {
    data := [];
    for i := 0 to |files|
      invariant data + Concatenated(files[i..]) == Concatenated(files)
    {
      assert files[i..][0] == files[i] && files[i..][1..] == files[i + 1..];
      ConcatAssoc(data, files[i].1, Concatenated(files[i + 1..]));
      data := data + files[i].1;
    }
    EmptyTail(data);
  }

  method VerifyPieces(sha: PieceHashFn, files: seq<(string, Bytes)>, n: nat, hashes: seq<PieceHash>) returns (ok: bool)
    ensures ok <==> n > 0 && Accepts(sha, n, Concatenated(files), hashes)
  {
    if n == 0 {
      return false;
    }
    hide PieceCount, MatchesAt;
    var data := Concatenate(files);
    AcceptsByIndex(sha, n, data, hashes);
    if PieceCount(n, |data|) != |hashes| {
      return false;
    }
    var rest, i := data, 0;
    while rest != [] && i < |hashes|
      invariant 0 <= i <= |hashes|
      invariant |hashes| - i == PieceCount(n, |rest|)
      invariant Accepts(sha, n, rest, hashes[i..]) <==> Accepts(sha, n, data, hashes)
      decreases |rest|
    {
      PieceCountStep(n, |rest|);
      assert hashes[i..][1..] == hashes[i + 1..];
      if sha(rest[..Min(n, |rest|)]) != hashes[i] {
        return false;
      }
      rest := rest[Min(n, |rest|)..];
      i := i + 1;
    }
    if rest != [] {
      PieceCountStep(n, |rest|);
    } else {
      PieceCountZero(n);
    }
    ok := true;
  }

  // ---- the streaming verifier ----

  class StreamingPieceVerifier {
    const sha: PieceHashFn
    const pieceLength: nat
    const pieceHashes: seq<PieceHash>
    var buf: Bytes
    var nextPiece: nat

    ghost predicate Valid()
      reads this
    {
      pieceLength > 0 && |buf| < pieceLength && nextPiece <= |pieceHashes|
    }

    /** Would the verifier accept if exactly `rest` were still to come? */
    ghost predicate WouldAccept(rest: Bytes)
      requires pieceLength > 0 && nextPiece <= |pieceHashes|
      reads this
    {
      Accepts(sha, pieceLength, buf + rest, pieceHashes[nextPiece..])
    }

    /** If `more` arrives next, will every full piece have matched? */
    ghost predicate OnTrack(more: Bytes)
      requires pieceLength > 0 && nextPiece <= |pieceHashes|
      reads this
    {
      FullPieces(sha, pieceLength, buf + more, pieceHashes[nextPiece..])
    }

    constructor (sha: PieceHashFn, pieceLength: nat, pieceHashes: seq<PieceHash>)
      requires pieceLength > 0
      ensures Valid()
      ensures this.sha == sha && this.pieceLength == pieceLength && this.pieceHashes == pieceHashes
      ensures buf == [] && nextPiece == 0
    {
      this.sha, this.pieceLength, this.pieceHashes := sha, pieceLength, pieceHashes;
      buf, nextPiece := [], 0;
    }

    /** Checks a full piece, or the short last one when nothing follows. */
    method HashAndCheck(ghost rest: Bytes, ghost more: Bytes) returns (r: Result<(), BridgeError>)
      requires pieceLength > 0 && nextPiece <= |pieceHashes|
      requires 0 < |buf| <= pieceLength
      requires |buf| == pieceLength || rest == []
      modifies this
      ensures r.Ok? ==> Valid() && buf == [] && nextPiece == old(nextPiece) + 1
      ensures r.Ok? ==> (WouldAccept(rest) <==> old(WouldAccept(rest)))
      ensures r.Err? ==> r.error == PieceVerificationFailed && !old(WouldAccept(rest))
      ensures old(|buf|) == pieceLength ==>
        if r.Ok? then OnTrack(more) <==> old(OnTrack(more)) else !old(OnTrack(more))
    {
      assert |buf| == pieceLength ==> (buf + more)[..|buf|] == buf && (buf + more)[|buf|..] == more;
      ghost var data, hashes := buf + rest, pieceHashes[nextPiece..];
      assert Min(pieceLength, |data|) == |buf| && data[..|buf|] == buf && data[|buf|..] == rest;
      if nextPiece >= |pieceHashes| {
        return Err(PieceVerificationFailed);
      }
      if sha(buf) != pieceHashes[nextPiece] {
        return Err(PieceVerificationFailed);
      }
      buf := [];
      nextPiece := nextPiece + 1;
      assert pieceHashes[nextPiece..] == hashes[1..] && [] + rest == rest && [] + more == more;
      return Ok(());
    }

    method Feed(data: Bytes, ghost rest: Bytes, ghost more: Bytes) returns (r: Result<(), BridgeError>)
      requires Valid()
      modifies this
      ensures r.Ok? ==> Valid() && (WouldAccept(rest) <==> old(WouldAccept(data + rest)))
      ensures r.Err? ==> r.error == PieceVerificationFailed && !old(WouldAccept(data + rest))
      ensures if r.Ok? then OnTrack(more) <==> old(OnTrack(data + more)) else !old(OnTrack(data + more))
    {
      var left := data;
      while left != []
        invariant Valid()
        invariant WouldAccept(left + rest) <==> old(WouldAccept(data + rest))
        invariant OnTrack(left + more) <==> old(OnTrack(data + more))
        decreases |left|
      {
        var take := Min(pieceLength - |buf|, |left|);
        assert left == left[..take] + left[take..];
        assert buf + (left + rest) == (buf + left[..take]) + (left[take..] + rest);
        assert buf + (left + more) == (buf + left[..take]) + (left[take..] + more);
        buf := buf + left[..take];
        left := left[take..];
        if |buf| == pieceLength {
          var checked := HashAndCheck(left + rest, left + more);
          if checked.Err? {
            return checked;
          }
        }
      }
      assert [] + rest == rest && [] + more == more;
      return Ok(());
    }

    method Finish() returns (r: Result<(), BridgeError>)
      requires Valid()
      modifies this
      ensures r.Ok? <==> old(WouldAccept([]))
      ensures r.Err? ==> r.error == PieceVerificationFailed
    {
      assert buf + [] == buf;
      if buf != [] {
        var checked := HashAndCheck([], []);
        if checked.Err? {
          return checked;
        }
      }
      assert buf + [] == [];
      if nextPiece != |pieceHashes| {
        return Err(PieceVerificationFailed);
      }
      return Ok(());
    }
  }

  /** One file as the read loop meets it: it may fail to open, and its bytes arrive in reads of
      any sizes, possibly ending in a read error instead of end of file. */
  datatype SourceFile = Unopenable(name: string) | Opened(name: string, parts: seq<Bytes>, broken: bool)

  ghost predicate Readable(files: seq<SourceFile>) {
    forall f :: f in files ==> f.Opened? && !f.broken
  }

  ghost predicate FirstUnreadable(files: seq<SourceFile>, i: nat) {
    i < |files| && !(files[i].Opened? && !files[i].broken) && Readable(files[..i])
  }

  ghost function Content(files: seq<SourceFile>): Bytes {
    if files == [] then []
    else (if files[0].Opened? then Flatten(files[0].parts) else []) + Content(files[1..])
  }

  /** What arrives of the files before the first that cannot be read fails. */
  ghost function Arrived(files: seq<SourceFile>): Bytes {
    if files == [] || files[0].Unopenable? then []
    else Flatten(files[0].parts) + if files[0].broken then [] else Arrived(files[1..])
  }

  method FeedParts(v: StreamingPieceVerifier, parts: seq<Bytes>, ghost rest: Bytes, ghost more: Bytes)
    returns (r: Result<(), BridgeError>)
    requires v.Valid()
    modifies v
    ensures r.Ok? ==> v.Valid() && (v.WouldAccept(rest) <==> old(v.WouldAccept(Flatten(parts) + rest)))
    ensures r.Err? ==> r.error == PieceVerificationFailed && !old(v.WouldAccept(Flatten(parts) + rest))
    ensures if r.Ok? then v.OnTrack(more) <==> old(v.OnTrack(Flatten(parts) + more))
      else !old(v.OnTrack(Flatten(parts) + more))
  {
    for i := 0 to |parts|
      invariant v.Valid()
      invariant v.WouldAccept(Flatten(parts[i..]) + rest) <==> old(v.WouldAccept(Flatten(parts) + rest))
      invariant v.OnTrack(Flatten(parts[i..]) + more) <==> old(v.OnTrack(Flatten(parts) + more))
    {
      assert parts[i..][1..] == parts[i + 1..];
      ConcatAssoc(parts[i], Flatten(parts[i + 1..]), rest);
      ConcatAssoc(parts[i], Flatten(parts[i + 1..]), more);
      var fed := v.Feed(parts[i], Flatten(parts[i + 1..]) + rest, Flatten(parts[i + 1..]) + more);
      if fed.Err? {
        return fed;
      }
    }
    EmptyConcat(rest);
    EmptyConcat(more);
    return Ok(());
  }

  /** For readable files the streamed check succeeds exactly when the in-memory check of the same
      bytes does, whatever way the reads cut them. Otherwise it names the first file that cannot be
      read, unless a full piece of what arrived before is already wrong. */
  method VerifyPiecesStreaming(sha: PieceHashFn, files: seq<SourceFile>, n: nat, hashes: seq<PieceHash>)
    returns (r: Result<(), BridgeError>)
    ensures Readable(files) ==> (r.Ok? <==> n > 0 && Accepts(sha, n, Content(files), hashes))
    ensures Readable(files) && r.Err? ==> r.error == PieceVerificationFailed
    ensures n > 0 && !Readable(files) ==>
      if FullPieces(sha, n, Arrived(files), hashes)
      then exists i: nat :: FirstUnreadable(files, i) && r == Err(Source(files[i].name))
      else r == Err(PieceVerificationFailed)
    ensures n == 0 ==> r == Err(PieceVerificationFailed)
  {
    if n == 0 {
      return Err(PieceVerificationFailed);
    }
    var v := new StreamingPieceVerifier(sha, n, hashes);
    EmptyConcat(Content(files));
    EmptyConcat(Arrived(files));
    assert files[0..] == files;
    for i := 0 to |files|
      invariant fresh(v) && v.Valid()
      invariant v.sha == sha && v.pieceLength == n && v.pieceHashes == hashes
      invariant v.WouldAccept(Content(files[i..])) <==> Accepts(sha, n, Content(files), hashes)
      invariant v.OnTrack(Arrived(files[i..])) <==> FullPieces(sha, n, Arrived(files), hashes)
      invariant Readable(files[..i])
    {
      var f := files[i];
      if f.Unopenable? {
        assert FirstUnreadable(files, i);
        return Err(Source(f.name));
      }
      assert files[i..][1..] == files[i + 1..];
      var fed := FeedParts(v, f.parts, Content(files[i + 1..]), if f.broken then [] else Arrived(files[i + 1..]));
      if fed.Err? {
        return fed;
      }
      if f.broken {
        assert FirstUnreadable(files, i);
        return Err(Source(f.name));
      }
    }
    assert files[..|files|] == files;
    r := v.Finish();
  }
}
