/** How an erasure-coded download fails, against any provider. */
module FecFaults {
  import opened Basics
  import opened Manifests
  import opened BuildTheorems
  import opened StoreSpec
  import opened Transfer
  import opened EventLoops
  import opened Requests
  import opened Fec
  import opened FecTheorems
  import opened FecDownload

  /** Attempts have been spaced out by a quarter of what is needed. */
  ghost predicate Spaced(total: nat, st: Fetching) {
    st.attempts > 0 ==> st.lastAttempt >= Need(total) + (st.attempts - 1) * Spacing(total)
  }

  /** Why the round after the first `k` replies ends the fetch with `e`: the provider failed; or it has
      no more symbols and those received do not decode; or they are more than twice the content; or
      so many that sixteen spaced attempts have failed, the last on all of them. */
  ghost predicate EndsWith(total: nat, root: Digest, provider: Provider, decode: Decoder, k: nat, e: NetError) {
    var before, reply, after := After(provider, k), provider(k, After(provider, k).start), After(provider, k + 1);
    || reply == Err(e)
    || (reply == Ok([]) && decode(before.symbols) == None && e == MissingChunk(root))
    || (reply.Ok? && SizeOf(after.symbols) > 2 * total && e == NetError.BadChunk)
    || (reply.Ok? && |after.symbols| >= RoundBound(total) && decode(after.symbols) == None && e == NetError.BadChunk)
  }

  lemma RoundSpaced(total: nat, root: Digest, decode: Decoder, st: Fetching, batch: seq<Bytes>)
    requires Progressing(total, st) && Spaced(total, st) && total <= MAX_FEC_TRANSFER_SIZE
    ensures var v := Round(total, root, decode, st, Ok(batch)); v.Continue? ==> Spaced(total, v.state)
  {
    hide Need, Spacing, SizeOf, AdvanceStart;
    if st.attempts > 0 {
      MulSucc(st.attempts - 1, Spacing(total));
    }
  }

  lemma RoundFails(total: nat, root: Digest, decode: Decoder, st: Fetching, batch: seq<Bytes>)
    requires Progressing(total, st) && Spaced(total, st) && total <= MAX_FEC_TRANSFER_SIZE
      && st.fetched == SizeOf(st.symbols)
    ensures var v, all := Round(total, root, decode, st, Ok(batch)), st.symbols + batch;
      v.Failed? ==>
        || (batch == [] && decode(st.symbols) == None && v.error == MissingChunk(root))
        || (SizeOf(all) > 2 * total && v.error == NetError.BadChunk)
        || (|all| >= RoundBound(total) && decode(all) == None && v.error == NetError.BadChunk)
  {
    FlattenAppend(st.symbols, batch);
    EmptyTail(st.symbols);
    if st.attempts > 0 {
      MulSucc(st.attempts - 1, Spacing(total));
    }
    hide Need, Spacing, Flatten, AdvanceStart;
  }

  /** A fetch that fails does so for one of those reasons, after some number of replies. */
  lemma {:induction false} FetchFails(total: nat, root: Digest, provider: Provider, decode: Decoder,
                      st: Fetching) returns (k: nat)
    requires total <= MAX_FEC_TRANSFER_SIZE && Progressing(total, st) && st.fetched == SizeOf(st.symbols)
    requires Follows(provider, st) && Spaced(total, st)
    requires FetchFrom(total, root, provider, decode, st).Err?
    ensures EndsWith(total, root, provider, decode, k, FetchFrom(total, root, provider, decode, st).error)
    decreases RoundBound(total) - st.rounds
  {
    hide Progressing, RoundBound, SizeOf, Round, AdvanceStart, Spaced;
    RoundsLeft(total, st);
    var answer := provider(st.rounds, st.start);
    RoundProgresses(total, root, decode, st, answer);
    var v := Round(total, root, decode, st, answer);
    if answer.Err? {
      FailedAnswer(total, root, decode, st, answer);
      k := st.rounds;
    } else {
      RoundCounts(total, root, decode, st, answer.value);
      RoundSpaced(total, root, decode, st, answer.value);
      RoundFails(total, root, decode, st, answer.value);
      AfterNext(provider, st, answer.value);
      hide After;
      if v.Continue? {
        k := FetchFails(total, root, provider, decode, v.state);
      } else {
        k := st.rounds;
      }
    }
  }

  lemma FreshSpaced(total: nat, provider: Provider)
    ensures Spaced(total, FRESH) && Follows(provider, FRESH) && FRESH.fetched == SizeOf(FRESH.symbols)
  {
  }

  /** Every way the whole download can end, and what it has done by then: nothing at all unless the
      stream was accepted, and then the puts up to the one that failed. */
  lemma FecEnds(h: HashFn, cut: Chunker, parse: Parser, decode: SizedDecoder, remote: Remote, root: Digest, d: Disk,
                s: Handle)
    ensures var out, reply := DownloadFec(h, cut, parse, decode, remote, root, d, s), remote(0, AskManifest(root));
      var got := GetManifest(h, parse, root, reply);
      if got.Err? then out == Downloaded(d, s, Err(got.error), None)
      else if got.value.totalSize > 0x8_0000_0000 then out == Downloaded(d, s, Err(BadManifest), None)
      else
        var m := got.value;
        var stream := FetchStream(m, root, remote, decode);
        if stream.Err? then out == Downloaded(d, s, Err(stream.error), None)
        else
          var files := SplitStream(m, stream.value.0);
          if files.Err? || FromFiles(h, cut, files.value, m.name).root != root
          then out == Downloaded(d, s, Err(NetError.BadChunk), None)
          else
            var o := PutAll(h, d, s, PiecesOf(cut, files.value));
            && out.disk == o.disk && out.handle == o.handle
            && out.result == (if o.result.Err? then Err(StoreFailed(o.result.error)) else Ok(m))
            && (o.result.Err? ==> out.receipt == None)
  {
    hide GetManifest, FetchFrom, SplitStream, FromFiles, PutAll, PiecesOf, SymbolsFrom, DecoderFor, Progressing;
  }

  /** The stream error of a download that fetched nothing usable is one of the four reasons. */
  lemma FecStreamFails(m: Manifest, root: Digest, remote: Remote, decode: SizedDecoder) returns (k: nat)
    requires m.totalSize <= MAX_FEC_TRANSFER_SIZE && FetchStream(m, root, remote, decode).Err?
    ensures EndsWith(m.totalSize, root, SymbolsFrom(remote, root), DecoderFor(decode, m.totalSize), k,
                     FetchStream(m, root, remote, decode).error)
  {
    hide EndsWith, SymbolsFrom, DecoderFor, FetchFrom;
    FreshProgresses(m.totalSize);
    FreshSpaced(m.totalSize, SymbolsFrom(remote, root));
    hide Progressing, Spaced, Follows, SizeOf;
    k := FetchFails(m.totalSize, root, SymbolsFrom(remote, root), DecoderFor(decode, m.totalSize), FRESH);
  }

  lemma {:induction false} StartIsBehind(provider: Provider, k: nat)
    requires |After(provider, k).symbols| <= U32_MAX
    ensures After(provider, k).start == |After(provider, k).symbols|
  {
    hide SizeOf;
    if k > 0 {
      StartIsBehind(provider, k - 1);
    }
  }

  /** Every round asks for 128 symbols, from the one right behind all those received so far, as long
      as these can be counted in 32 bits. */
  lemma NextSymbolsAsked(remote: Remote, root: Digest, k: nat)
    ensures var provider := SymbolsFrom(remote, root);
      var st := After(provider, k);
      |st.symbols| <= 0xFFFF_FFFF ==>
        provider(k, st.start) == GetSymbols(remote(k + 1, AskSymbols(root, |st.symbols|, 128)))
  {
    hide After;
    var provider := SymbolsFrom(remote, root);
    if |After(provider, k).symbols| <= U32_MAX {
      StartIsBehind(provider, k);
    }
  }

  /** The bound on rounds, in numbers. */
  lemma RoundBoundInNumbers(total: nat)
    ensures var n := if total == 0 then 1 else (total + 1199) / 1200;
      RoundBound(total) == n + 15 * (if n < 4 then 1 else n / 4)
  {
  }
}
