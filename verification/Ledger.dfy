/** The contribution ledger (crates/np2ptp-rep/src/ledger.rs): saturating per-peer counters and the
    reputation the choke policy reads. */
module Ledgers {
  import opened Basics

  datatype Counters = Counters(servedToUs: U64, weServed: U64, credited: U64)

  const NOTHING := Counters(0, 0, 0)

  const I64_MIN: int := -0x8000_0000_0000_0000
  const I64_MAX: int := 0x7FFF_FFFF_FFFF_FFFF

  type Book<!K> = map<K, Counters>

  function CountersOf<K>(peers: Book<K>, k: K): Counters {
    if k in peers then peers[k] else NOTHING
  }

  function Received<K>(peers: Book<K>, from: K, bytes: nat): Book<K> {
    var c := CountersOf(peers, from);
    peers[from := c.(servedToUs := SatAdd(c.servedToUs, bytes))]
  }

  function Served<K>(peers: Book<K>, to: K, bytes: nat): Book<K> {
    var c := CountersOf(peers, to);
    peers[to := c.(weServed := SatAdd(c.weServed, bytes))]
  }

  function Credited<K>(peers: Book<K>, peer: K, bytes: nat): Book<K> {
    var c := CountersOf(peers, peer);
    peers[peer := c.(credited := SatAdd(c.credited, bytes))]
  }

  /** What the peer gave beyond what it took. */
  function Net(c: Counters): int { c.servedToUs + c.credited - c.weServed }

  function Reputation(c: Counters): int {
    if Net(c) < I64_MIN then I64_MIN else if Net(c) > I64_MAX then I64_MAX else Net(c)
  }

  ghost function Distance(a: int, b: int): nat { if a <= b then b - a else a - b }

  /** The reputation is the signed 64-bit number closest to what the peer gave beyond what it took. */
  lemma ReputationIsNearest(c: Counters, n: int)
    ensures -0x8000_0000_0000_0000 <= Reputation(c) <= 0x7FFF_FFFF_FFFF_FFFF
    ensures -0x8000_0000_0000_0000 <= n <= 0x7FFF_FFFF_FFFF_FFFF && n != Reputation(c) ==>
      Distance(Reputation(c), c.servedToUs + c.credited - c.weServed)
        < Distance(n, c.servedToUs + c.credited - c.weServed)
  {
  }

  // ---- aggregate ----

  ghost function Sum<K(!new)>(m: map<K, nat>): nat {
    if m == map[] then 0 else var k :| k in m; m[k] + Sum(m - {k})
  }

  /** The sum does not depend on the order in which keys are picked. */
  lemma {:induction false} SumRemove<K(!new)>(m: map<K, nat>, k: K)
    requires k in m
    ensures Sum(m) == m[k] + Sum(m - {k})
    decreases |m|
  {
    assert m != map[];
    var j :| j in m && Sum(m) == m[j] + Sum(m - {j});
    if j != k {
      SumRemove(m - {j}, k);
      SumRemove(m - {k}, j);
      assert m - {j} - {k} == m - {k} - {j};
    }
  }

  datatype Field = ServedToUs | WeServed | ByReceipts

  ghost function Pick(c: Counters, f: Field): nat {
    match f
    case ServedToUs => c.servedToUs
    case WeServed => c.weServed
    case ByReceipts => c.credited
  }

  ghost function Column<K(!new)>(peers: Book<K>, f: Field): map<K, nat> {
    map k | k in peers :: Pick(peers[k], f)
  }

  /** One field summed over all peers. */
  ghost function Total<K(!new)>(peers: Book<K>, f: Field): nat { Sum(Column(peers, f)) }

  lemma TotalRemove<K(!new)>(peers: Book<K>, f: Field, k: K)
    requires k in peers
    ensures Total(peers, f) == Pick(peers[k], f) + Total(peers - {k}, f)
  {
    SumRemove(Column(peers, f), k);
    assert Column(peers, f) - {k} == Column(peers - {k}, f);
  }

  class Ledger<K(==, !new)> {
    var peers: Book<K>

    constructor ()
      ensures peers == map[]
    {
      peers := map[];
    }

    method RecordReceived(from: K, bytes: nat)
      modifies this
      ensures peers == Received(old(peers), from, bytes)
    {
      var c := if from in peers then peers[from] else NOTHING;
      peers := peers[from := c.(servedToUs := SatAdd(c.servedToUs, bytes))];
    }

    method RecordServed(to: K, bytes: nat)
      modifies this
      ensures peers == Served(old(peers), to, bytes)
    {
      var c := if to in peers then peers[to] else NOTHING;
      peers := peers[to := c.(weServed := SatAdd(c.weServed, bytes))];
    }

    method CreditReceipt(peer: K, bytes: nat)
      modifies this
      ensures peers == Credited(old(peers), peer, bytes)
    {
      var c := if peer in peers then peers[peer] else NOTHING;
      peers := peers[peer := c.(credited := SatAdd(c.credited, bytes))];
    }

    /** Whatever order the map is walked in, each total is the true sum, cut off at u64. */
    method Totals() returns (t: Counters)
      ensures t.servedToUs == Min(Total(peers, ServedToUs), U64_MAX)
      ensures t.weServed == Min(Total(peers, WeServed), U64_MAX)
      ensures t.credited == Min(Total(peers, ByReceipts), U64_MAX)
    {
      hide Total;
      t := NOTHING;
      var rest := peers;
      ghost var s0: nat, s1: nat, s2: nat := 0, 0, 0;
      while rest != map[]
        invariant t == Counters(Min(s0, U64_MAX), Min(s1, U64_MAX), Min(s2, U64_MAX))
        invariant s0 + Total(rest, ServedToUs) == Total(peers, ServedToUs)
        invariant s1 + Total(rest, WeServed) == Total(peers, WeServed)
        invariant s2 + Total(rest, ByReceipts) == Total(peers, ByReceipts)
        decreases |rest|
      {
        var k :| k in rest;
        var c := rest[k];
        TotalRemove(rest, ServedToUs, k);
        TotalRemove(rest, WeServed, k);
        TotalRemove(rest, ByReceipts, k);
        t := Counters(SatAdd(t.servedToUs, c.servedToUs), SatAdd(t.weServed, c.weServed),
          SatAdd(t.credited, c.credited));
        s0, s1, s2 := s0 + c.servedToUs, s1 + c.weServed, s2 + c.credited;
        rest := rest - {k};
      }
      NoPeers(rest);
    }
  }

  lemma NoPeers<K(!new)>(peers: Book<K>)
    requires peers == map[]
    ensures forall f :: Total(peers, f) == 0
  {
    forall f
      ensures Total(peers, f) == 0
    {
      assert Column(peers, f) == map[];
    }
  }
}
