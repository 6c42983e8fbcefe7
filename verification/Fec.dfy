/** The erasure-coded download of crates/np2ptp-net/src/lib.rs: fetching symbols from one provider,
    which may answer anything, until they decode. */
module Fec {
  import opened Basics
  import opened EventLoops
  import opened Requests

  const SYMBOL_SIZE: nat := 1200
  const FEC_BATCH: nat := 128
  const FEC_REPAIR_SYMBOLS: nat := 64
  const MAX_FEC_TRANSFER_SIZE: nat := 32 * 1024 * 1024 * 1024
  const MAX_DECODE_ATTEMPTS: nat := 16

  /** What the provider answers in a round, which may depend on the start index asked for. */
  type Provider = (nat, nat) -> Result<seq<Bytes>, NetError>
  /** The fountain decoder: nothing is assumed about it. */
  type Decoder = seq<Bytes> -> Option<Bytes>

  function AtLeastOne(n: nat): nat { if n == 0 then 1 else n }

  /** `total_size.div_ceil(symbol_size).max(1)`. */
  function Need(total: nat): (n: nat)
    ensures n >= 1
  {
    AtLeastOne((total + SYMBOL_SIZE - 1) / SYMBOL_SIZE)
  }

  /** How many new symbols justify another decode attempt. */
  function Spacing(total: nat): (n: nat)
    ensures 1 <= n <= Need(total)
  {
    AtLeastOne(Need(total) / 4)
  }

  datatype Fetching = Fetching(rounds: nat, symbols: seq<Bytes>, start: nat, fetched: nat, lastAttempt: nat,
    attempts: nat)

  datatype Verdict = Continue(state: Fetching) | Decoded(data: Bytes, fetched: nat) | Failed(error: NetError)

  const FRESH := Fetching(0, [], 0, 0, 0, 0)

  /** `u32::saturating_add` of a `usize` cast to `u32`. */
  function AdvanceStart(start: nat, count: nat): nat {
    Min(start + count % (U32_MAX + 1), U32_MAX)
  }

  function Absorb(st: Fetching, batch: seq<Bytes>): Fetching {
    st.(rounds := st.rounds + 1, symbols := st.symbols + batch,
        start := AdvanceStart(st.start, |batch|), fetched := Min(st.fetched + SizeOf(batch), U64_MAX))
  }

  /** One turn of the loop. */
  function Round(total: nat, root: Digest, decode: Decoder, st: Fetching,
                 answer: Result<seq<Bytes>, NetError>): Verdict {
    match answer
    case Err(e) => Failed(e)
    case Ok(batch) =>
      var exhausted := batch == [];
      var st1 := Absorb(st, batch);
      if st1.fetched > Min(2 * total, U64_MAX) then Failed(BadChunk)
      else if |st1.symbols| < Need(total) && !exhausted then Continue(st1)
      else
        var enough := |st1.symbols| - st1.lastAttempt >= Spacing(total);
        var st2 := if enough || exhausted then st1.(lastAttempt := |st1.symbols|, attempts := st1.attempts + 1)
          else st1;
        var decoded := if enough || exhausted then decode(st1.symbols) else None;
        if decoded.Some? then Decoded(decoded.value, st1.fetched)
        else if exhausted then Failed(MissingChunk(root))
        else if st2.attempts >= MAX_DECODE_ATTEMPTS then Failed(BadChunk)
        else Continue(st2)
  }

  /** What holds whenever the loop goes round again. */
  ghost predicate Progressing(total: nat, st: Fetching) {
    && st.attempts < MAX_DECODE_ATTEMPTS
    && st.lastAttempt <= |st.symbols|
    && st.fetched <= 2 * total
    && (st.attempts == 0 ==> st.lastAttempt == 0 && st.rounds <= |st.symbols| < Need(total))
    && (st.attempts > 0 ==>
          && |st.symbols| >= Need(total)
          && |st.symbols| - st.lastAttempt < Spacing(total)
          && st.rounds <= Need(total) + (st.attempts - 1) * Spacing(total) + (|st.symbols| - st.lastAttempt))
  }

  function RoundBound(total: nat): nat { Need(total) + 15 * Spacing(total) }

  lemma RoundsLeft(total: nat, st: Fetching)
    requires Progressing(total, st)
    ensures st.rounds < RoundBound(total)
  {
    hide Need, Spacing;
    if st.attempts > 0 {
      MulMono(st.attempts - 1, 14, Spacing(total));
    }
  }

  /** Against any answer, a round that continues has made progress. */
  lemma RoundProgresses(total: nat, root: Digest, decode: Decoder, st: Fetching, answer: Result<seq<Bytes>, NetError>)
    requires Progressing(total, st) && total <= MAX_FEC_TRANSFER_SIZE
    ensures var v := Round(total, root, decode, st, answer);
      v.Continue? ==>
        Progressing(total, v.state) && v.state.rounds == st.rounds + 1 && v.state.attempts <= st.attempts + 1
  {
    hide Need, Spacing, SizeOf, AdvanceStart;
    var v := Round(total, root, decode, st, answer);
    if v.Continue? {
      assert |v.state.symbols| > |st.symbols|;
      if st.attempts > 0 {
        MulSucc(st.attempts - 1, Spacing(total));
      }
    }
  }

  /** The whole loop, as far as it goes. */
  function FetchFrom(total: nat, root: Digest, provider: Provider, decode: Decoder,
                     st: Fetching): Result<(Bytes, nat), NetError>
    requires total <= MAX_FEC_TRANSFER_SIZE && Progressing(total, st)
    decreases RoundBound(total) - st.rounds
  {
    RoundsLeft(total, st);
    RoundProgresses(total, root, decode, st, provider(st.rounds, st.start));
    match Round(total, root, decode, st, provider(st.rounds, st.start))
    case Decoded(data, fetched) => Ok((data, fetched))
    case Failed(e) => Err(e)
    case Continue(st') => FetchFrom(total, root, provider, decode, st')
  }

  lemma NothingYet(provider: Provider)
    ensures After(provider, 0) == FRESH
  {
  }

  lemma FreshProgresses(total: nat)
    ensures Progressing(total, FRESH)
  {
  }

  /** The symbols received and the next index after the first `k` replies, none of which failed. */
  ghost function After(provider: Provider, k: nat): Fetching {
    if k == 0 then FRESH
    else
      match provider(k - 1, After(provider, k - 1).start)
      case Err(_) => After(provider, k - 1)
      case Ok(batch) => Absorb(After(provider, k - 1), batch)
  }

  /** The state has absorbed the replies of as many rounds as it counts. */
  ghost predicate Follows(provider: Provider, st: Fetching) {
    var a := After(provider, st.rounds);
    a.rounds == st.rounds && a.symbols == st.symbols && a.start == st.start
  }

  /** Each report is how many of the needed symbols had arrived by then. */
  ghost predicate Reported(total: nat, provider: Provider, progress: seq<(nat, nat)>) {
    forall i :: 0 <= i < |progress| ==> progress[i] == (Min(|After(provider, i + 1).symbols|, Need(total)), Need(total))
  }

  lemma AfterNext(provider: Provider, st: Fetching, batch: seq<Bytes>)
    requires Follows(provider, st) && provider(st.rounds, st.start) == Ok(batch)
    ensures Follows(provider, Absorb(st, batch))
    ensures After(provider, st.rounds + 1).symbols == st.symbols + batch
  {
    hide AdvanceStart, SizeOf;
  }

  /** The loop terminates against every provider, within `need + 15 * max(need / 4, 1)` rounds and
      16 decode attempts, and never goes round again holding more than twice the content size. */
  method FetchSymbols(total: nat, root: Digest, provider: Provider, decode: Decoder)
    returns (r: Result<(Bytes, nat), NetError>, progress: seq<(nat, nat)>, rounds: nat, attempts: nat, kept: nat)
    requires total <= MAX_FEC_TRANSFER_SIZE
    ensures Progressing(total, FRESH) && r == FetchFrom(total, root, provider, decode, FRESH)
    ensures rounds <= RoundBound(total)
    ensures attempts <= MAX_DECODE_ATTEMPTS
    ensures kept <= 2 * total
    ensures Reported(total, provider, progress) && |progress| <= rounds <= |progress| + 1
    ensures r.Ok? ==> decode(After(provider, |progress|).symbols) == Some(r.value.0)
  {
    hide Need, Spacing, SizeOf, AdvanceStart, RoundBound, After;
    assert Follows(provider, FRESH) by { NothingYet(provider); }
    progress := [];
    FreshProgresses(total);
    var symbols: seq<Bytes>, start: nat, fetched: nat, lastAttempt: nat := [], 0, 0, 0;
    rounds, attempts, kept := 0, 0, 0;
    while true
      invariant Progressing(total, Fetching(rounds, symbols, start, fetched, lastAttempt, attempts))
      invariant kept <= 2 * total
      invariant Follows(provider, Fetching(rounds, symbols, start, fetched, lastAttempt, attempts))
      invariant Reported(total, provider, progress) && |progress| == rounds
      invariant FetchFrom(total, root, provider, decode,
        Fetching(rounds, symbols, start, fetched, lastAttempt, attempts))
             == FetchFrom(total, root, provider, decode, FRESH)
      decreases RoundBound(total) - rounds
    {
      ghost var st := Fetching(rounds, symbols, start, fetched, lastAttempt, attempts);
      RoundsLeft(total, st);
      var answer := provider(rounds, start);
      RoundProgresses(total, root, decode, st, answer);
      rounds := rounds + 1;
      if answer.Err? {
        return Err(answer.error), progress, rounds, attempts, kept;
      }
      var batch := answer.value;
      var exhausted := batch == [];
      start := AdvanceStart(start, |batch|);
      fetched := Min(fetched + SizeOf(batch), U64_MAX);
      symbols := symbols + batch;
      AfterNext(provider, st, batch);
      progress := progress + [(Min(|symbols|, Need(total)), Need(total))];
      if fetched > Min(2 * total, U64_MAX) {
        return Err(BadChunk), progress, rounds, attempts, kept;
      }
      if |symbols| >= Need(total) || exhausted {
        if |symbols| - lastAttempt >= Spacing(total) || exhausted {
          lastAttempt := |symbols|;
          attempts := attempts + 1;
          var decoded := decode(symbols);
          if decoded.Some? {
            return Ok((decoded.value, fetched)), progress, rounds, attempts, kept;
          }
        }
        if exhausted {
          return Err(MissingChunk(root)), progress, rounds, attempts, kept;
        }
        if attempts >= MAX_DECODE_ATTEMPTS {
          return Err(BadChunk), progress, rounds, attempts, kept;
        }
      }
      kept := if fetched > kept then fetched else kept;
    }
  }
}
