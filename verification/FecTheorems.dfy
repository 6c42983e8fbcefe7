/** What the erasure-coded download does against a provider that serves a correct encoding. */
module FecTheorems {
  import opened Basics
  import opened EventLoops
  import opened Requests
  import opened Fec

  /** A round that does not fail has counted its bytes exactly. */
  lemma RoundCounts(total: nat, root: Digest, decode: Decoder, st: Fetching, batch: seq<Bytes>)
    requires total <= MAX_FEC_TRANSFER_SIZE && st.fetched == SizeOf(st.symbols)
    ensures var v, st1 := Round(total, root, decode, st, Ok(batch)), Absorb(st, batch);
      && (v.Decoded? ==> decode(st1.symbols) == Some(v.data) && v.fetched == SizeOf(st1.symbols) <= 2 * total)
      && (v.Continue? ==>
            && v.state.fetched == SizeOf(v.state.symbols) && v.state.rounds == st1.rounds
            && v.state.symbols == st1.symbols && v.state.start == st1.start)
  {
    FlattenAppend(st.symbols, batch);
    hide Flatten, Need, Spacing, AdvanceStart;
  }

  /** What a successful fetch returns, against any provider: the decoding of all the symbols of its
      first `k` replies, and exactly how many bytes they were. */
  lemma {:induction false} FetchedMeaning(total: nat, root: Digest, provider: Provider, decode: Decoder,
                      st: Fetching) returns (k: nat)
    requires total <= MAX_FEC_TRANSFER_SIZE && Progressing(total, st) && st.fetched == SizeOf(st.symbols)
      && Follows(provider, st)
    requires FetchFrom(total, root, provider, decode, st).Ok?
    ensures var (data, fetched) := FetchFrom(total, root, provider, decode, st).value;
      var received := After(provider, k).symbols;
      decode(received) == Some(data) && fetched == SizeOf(received) <= 2 * total
    decreases RoundBound(total) - st.rounds
  {
    hide Progressing, RoundBound, SizeOf, Round, AdvanceStart;
    RoundsLeft(total, st);
    var answer := provider(st.rounds, st.start);
    RoundProgresses(total, root, decode, st, answer);
    assert answer.Ok? by { FailedAnswer(total, root, decode, st, answer); }
    RoundCounts(total, root, decode, st, answer.value);
    AfterNext(provider, st, answer.value);
    hide After;
    var v := Round(total, root, decode, st, answer);
    if v.Continue? {
      k := FetchedMeaning(total, root, provider, decode, v.state);
    } else {
      k := st.rounds + 1;
    }
  }

  lemma FailedAnswer(total: nat, root: Digest, decode: Decoder, st: Fetching, answer: Result<seq<Bytes>, NetError>)
    ensures answer.Err? ==> Round(total, root, decode, st, answer) == Failed(answer.error)
  {
  }

  /** A payload identifier and one full symbol. */
  const PACKET_SIZE: nat := 4 + SYMBOL_SIZE

  /** The size from which 128 packets fit twice the content. */
  const SMALLEST_SERVED: nat := 77056

  /** The packets of a correct encoding of `data`: the source symbols of every block and 64 repair
      symbols a block, in order, which decode to nothing or to `data` and do decode when all are
      there. One block is systematic: its source symbols alone already decode. More than one block
      is only used when each holds at least a thousand symbols. */
  ghost predicate Encodes(total: nat, blocks: nat, packets: seq<Bytes>, decode: Decoder, data: Bytes) {
    && |packets| == (if total == 0 then 0 else Need(total) + FEC_REPAIR_SYMBOLS * blocks)
    && (blocks == 1 || (blocks > 1 && 1000 * blocks <= Need(total)))
    && (forall i :: 0 <= i < |packets| ==> |packets[i]| == PACKET_SIZE)
    && (forall n: nat :: n <= |packets| ==> Faithful(total, blocks, |packets|, n, decode(packets[..n]), data))
  }

  ghost predicate Faithful(total: nat, blocks: nat, count: nat, n: nat, decoded: Option<Bytes>, data: Bytes) {
    && (decoded == None || decoded == Some(data))
    && (n == count || (blocks == 1 && n >= Need(total)) ==> decoded == Some(data))
  }

  function HonestProvider(packets: seq<Bytes>): Provider {
    (round: nat, start: nat) => Ok(SymbolRange(packets, start, FEC_BATCH))
  }

  lemma {:induction false} PacketBytes(packets: seq<Bytes>)
    requires forall i :: 0 <= i < |packets| ==> |packets[i]| == PACKET_SIZE
    ensures SizeOf(packets) == PACKET_SIZE * |packets|
  {
    if packets != [] {
      PacketBytes(packets[1..]);
    }
  }

  function PacketsSize(k: nat): nat { PACKET_SIZE * k }

  /** The bytes of enough packets, and no more than there are. */
  ghost predicate PaidFor(total: nat, packets: seq<Bytes>, fetched: nat) {
    exists k: nat :: Need(total) <= k <= |packets| && fetched == PacketsSize(k)
  }

  /** Where the loop stands after some rounds against an honest provider. */
  ghost predicate OnTrack(total: nat, blocks: nat, packets: seq<Bytes>, st: Fetching) {
    var k := |st.symbols|;
    && k <= |packets| && st.symbols == packets[..k] && st.start == k && st.fetched == PACKET_SIZE * k
    && (k == 0 || Need(total) > FEC_BATCH)
    && if st.attempts == 0 then st.lastAttempt == 0 && k < Need(total)
       else st.attempts == 1 && blocks > 1 && Need(total) <= st.lastAttempt <= k
  }

  /** Only the first batch of a content of at most 128 symbols comes near the byte cap. */
  lemma WithinCap(total: nat, blocks: nat, k: nat)
    requires SMALLEST_SERVED <= total <= MAX_FEC_TRANSFER_SIZE
    requires blocks == 1 || (blocks > 1 && 1000 * blocks <= Need(total))
    requires k <= FEC_BATCH || (Need(total) > FEC_BATCH && k <= Need(total) + FEC_REPAIR_SYMBOLS * blocks)
    ensures PACKET_SIZE * k <= 2 * total
    ensures Need(total) + FEC_REPAIR_SYMBOLS * blocks <= U32_MAX
    ensures Need(total) > 64
    ensures blocks > 1 ==> FEC_REPAIR_SYMBOLS * blocks < Spacing(total)
  {
  }

  lemma HonestBatch(packets: seq<Bytes>, k: nat)
    requires k <= |packets| <= U32_MAX && forall i :: 0 <= i < |packets| ==> |packets[i]| == PACKET_SIZE
    ensures var batch := SymbolRange(packets, k, FEC_BATCH); var k' := Min(k + FEC_BATCH, |packets|);
      && packets[..k] + batch == packets[..k'] && |batch| == k' - k
      && SizeOf(batch) == PACKET_SIZE * (k' - k)
      && AdvanceStart(k, |batch|) == k'
  {
    hide SizeOf;
    PacketBytes(SymbolRange(packets, k, FEC_BATCH));
  }

  lemma HonestRound(total: nat, root: Digest, blocks: nat, packets: seq<Bytes>, decode: Decoder, data: Bytes,
                    st: Fetching)
    requires SMALLEST_SERVED <= total <= MAX_FEC_TRANSFER_SIZE
    requires Encodes(total, blocks, packets, decode, data) && OnTrack(total, blocks, packets, st)
    ensures var v := Round(total, root, decode, st, HonestProvider(packets)(st.rounds, st.start));
      var k := Min(|st.symbols| + FEC_BATCH, |packets|);
      || (v.Decoded? && v.data == data && Need(total) <= k && v.fetched == PACKET_SIZE * k)
      || (v.Continue? && OnTrack(total, blocks, packets, v.state))
  {
    hide Need, Spacing, SizeOf, AdvanceStart, SymbolRange;
    var k := |st.symbols|;
    var k' := Min(k + FEC_BATCH, |packets|);
    WithinCap(total, blocks, k');
    HonestBatch(packets, k);
    assert Faithful(total, blocks, |packets|, k', decode(packets[..k']), data);
  }

  lemma PaidForPackets(total: nat, packets: seq<Bytes>, k: nat)
    ensures Need(total) <= k <= |packets| ==> PaidFor(total, packets, PACKET_SIZE * k)
  {
    hide Need;
    assert PacketsSize(k) == PACKET_SIZE * k;
  }

  lemma {:induction false} HonestFrom(total: nat, root: Digest, blocks: nat, packets: seq<Bytes>, decode: Decoder,
                      data: Bytes, st: Fetching)
    requires SMALLEST_SERVED <= total <= MAX_FEC_TRANSFER_SIZE
    requires Encodes(total, blocks, packets, decode, data) && OnTrack(total, blocks, packets, st)
    requires Progressing(total, st)
    ensures var r := FetchFrom(total, root, HonestProvider(packets), decode, st);
      r.Ok? && r.value.0 == data && PaidFor(total, packets, r.value.1)
    decreases RoundBound(total) - st.rounds
  {
    hide Encodes, OnTrack, HonestProvider, Round, Progressing, RoundBound, PaidFor;
    RoundsLeft(total, st);
    var answer := HonestProvider(packets)(st.rounds, st.start);
    RoundProgresses(total, root, decode, st, answer);
    HonestRound(total, root, blocks, packets, decode, data, st);
    PaidForPackets(total, packets, Min(|st.symbols| + FEC_BATCH, |packets|));
    var v := Round(total, root, decode, st, answer);
    if v.Continue? {
      HonestFrom(total, root, blocks, packets, decode, data, v.state);
    }
  }

  /** A small content is refused after its first batch: the repair symbols count against the cap. */
  lemma SmallRefused(total: nat, root: Digest, blocks: nat, packets: seq<Bytes>, decode: Decoder, data: Bytes)
    requires 0 < total < SMALLEST_SERVED && Encodes(total, blocks, packets, decode, data)
    ensures Round(total, root, decode, FRESH, HonestProvider(packets)(0, 0)) == Failed(BadChunk)
  {
    hide SizeOf, AdvanceStart, SymbolRange;
    HonestBatch(packets, 0);
  }

  /** Exactly when an honest provider's content arrives. */
  lemma HonestOutcome(total: nat, root: Digest, blocks: nat, packets: seq<Bytes>, decode: Decoder, data: Bytes)
    requires total <= MAX_FEC_TRANSFER_SIZE && Encodes(total, blocks, packets, decode, data)
    ensures Progressing(total, FRESH)
    ensures var r := FetchFrom(total, root, HonestProvider(packets), decode, FRESH);
      && (r.Ok? <==> total == 0 || total >= SMALLEST_SERVED)
      && (if r.Ok? then r.value.0 == data else r == Err(BadChunk))
      && (r.Ok? ==> if total == 0 then r.value.1 == 0 else PaidFor(total, packets, r.value.1))
  {
    FreshProgresses(total);
    if total == 0 {
      assert Faithful(total, blocks, 0, 0, decode(packets[..0]), data);
      hide Need, Spacing, Encodes;
      assert packets[..0] == [] == FRESH.symbols + [];
    } else if total < SMALLEST_SERVED {
      SmallRefused(total, root, blocks, packets, decode, data);
      hide Round, HonestProvider, Encodes, Need;
    } else {
      assert OnTrack(total, blocks, packets, FRESH) by { hide Encodes; }
      hide Round, HonestProvider, Encodes, OnTrack, Progressing, PaidFor;
      HonestFrom(total, root, blocks, packets, decode, data, FRESH);
    }
  }
}
