/** Signed receipts and the bounded bag a node keeps of them (crates/np2ptp-net/src/receipts.rs). */
module Receipts {
  import opened Basics

  /** An Ed25519 identity, by number; signatures are checked by an arbitrary predicate. */
  type Key = nat
  datatype Receipt = Receipt(server: Key, client: Key, bytes: U64, epoch: U64, sig: Bytes)
  type Verifier = Receipt -> bool

  const MAX_RECEIPTS: nat := 50

  // ---- sort_by_key(Reverse(bytes)) ----

  ghost predicate Descending(rs: seq<Receipt>) {
    forall i, j :: 0 <= i < j < |rs| ==> rs[i].bytes >= rs[j].bytes
  }

  /** Into its place, behind everything at least as large: what keeps the sort stable. */
  function Place(rs: seq<Receipt>, r: Receipt): (out: seq<Receipt>)
    ensures multiset(out) == multiset(rs) + multiset{r}
    ensures |out| == |rs| + 1
  {
    if rs == [] then [r]
    else
      var n := |rs| - 1;
      assert rs == rs[..n] + [rs[n]];
      if rs[n].bytes >= r.bytes then rs + [r] else Place(rs[..n], r) + [rs[n]]
  }

  function SortDescending(rs: seq<Receipt>): (out: seq<Receipt>)
    ensures multiset(out) == multiset(rs) && |out| == |rs|
  {
    if rs == [] then []
    else
      assert rs == rs[..|rs| - 1] + [rs[|rs| - 1]];
      Place(SortDescending(rs[..|rs| - 1]), rs[|rs| - 1])
  }

  lemma MemberOf<T>(rs: seq<T>, x: T)
    ensures x in rs <==> x in multiset(rs)
  {
  }

  lemma {:induction false} PlaceAtLeast(rs: seq<Receipt>, r: Receipt, b: nat)
    requires r.bytes >= b && forall i :: 0 <= i < |rs| ==> rs[i].bytes >= b
    ensures forall i :: 0 <= i < |Place(rs, r)| ==> Place(rs, r)[i].bytes >= b
  {
    if rs != [] {
      PlaceAtLeast(rs[..|rs| - 1], r, b);
    }
  }

  lemma {:induction false} PlaceDescending(rs: seq<Receipt>, r: Receipt)
    requires Descending(rs)
    ensures Descending(Place(rs, r))
  {
    if rs != [] && rs[|rs| - 1].bytes < r.bytes {
      PlaceDescending(rs[..|rs| - 1], r);
      PlaceAtLeast(rs[..|rs| - 1], r, rs[|rs| - 1].bytes);
    }
  }

  lemma {:induction false} SortIsDescending(rs: seq<Receipt>)
    ensures Descending(SortDescending(rs))
  {
    if rs != [] {
      SortIsDescending(rs[..|rs| - 1]);
      PlaceDescending(SortDescending(rs[..|rs| - 1]), rs[|rs| - 1]);
    }
  }

  // ---- the bag ----

  function Inserted(bag: seq<Receipt>, r: Receipt): seq<Receipt> {
    if r in bag then bag
    else var sorted := SortDescending(bag + [r]); sorted[..Min(MAX_RECEIPTS, |sorted|)]
  }

  class ReceiptBag {
    var receipts: seq<Receipt>

    constructor ()
      ensures receipts == []
    {
      receipts := [];
    }

    method Insert(r: Receipt)
      modifies this
      ensures receipts == Inserted(old(receipts), r)
    {
      if r in receipts {
        return;
      }
      receipts := receipts + [r];
      receipts := SortDescending(receipts);
      if |receipts| > MAX_RECEIPTS {
        receipts := receipts[..MAX_RECEIPTS];
      }
    }
  }

  /** The bag after a whole history of submissions to an empty one. */
  function BagAfter(history: seq<Receipt>): seq<Receipt> {
    if history == [] then [] else Inserted(BagAfter(history[..|history| - 1]), history[|history| - 1])
  }

  ghost predicate NoDuplicates(bag: seq<Receipt>) {
    forall i, j :: 0 <= i < j < |bag| ==> bag[i] != bag[j]
  }

  /** The bag is within bounds and sorted, holds only what was submitted, each once, and whatever
      is missing was pushed out by fifty receipts at least as large. */
  ghost predicate BestKept(bag: seq<Receipt>, history: seq<Receipt>) {
    && |bag| <= 50
    && Descending(bag)
    && NoDuplicates(bag)
    && (forall r :: r in bag ==> r in history)
    && (forall r :: r in history && r !in bag ==> |bag| == 50 && forall b :: b in bag ==> b.bytes >= r.bytes)
  }

  lemma CountOfTwo(rs: seq<Receipt>, i: nat, j: nat)
    requires i < j < |rs| && rs[i] == rs[j]
    ensures multiset(rs)[rs[i]] >= 2
  {
    assert rs == rs[..j] + rs[j..];
    assert rs[..j][i] == rs[i] && rs[j..][0] == rs[i];
  }

  lemma {:induction false} CountOfDistinct(rs: seq<Receipt>, r: Receipt)
    requires NoDuplicates(rs)
    ensures multiset(rs)[r] <= 1
  {
    if rs != [] {
      var n := |rs| - 1;
      assert rs == rs[..n] + [rs[n]];
      CountOfDistinct(rs[..n], r);
      MemberOf(rs[..n], rs[n]);
    }
  }

  lemma SortedBag(bag: seq<Receipt>, r: Receipt)
    requires NoDuplicates(bag) && r !in bag
    ensures var sorted := SortDescending(bag + [r]);
      && Descending(sorted) && NoDuplicates(sorted) && |sorted| == |bag| + 1
      && forall x :: x in sorted <==> x in bag || x == r
  {
    hide SortDescending;
    var sorted := SortDescending(bag + [r]);
    SortIsDescending(bag + [r]);
    forall x
      ensures x in sorted <==> x in bag || x == r
    {
      MemberOf(sorted, x);
      MemberOf(bag + [r], x);
    }
    MemberOf(bag, r);
    forall i, j | 0 <= i < j < |sorted|
      ensures sorted[i] != sorted[j]
    {
      CountOfDistinct(bag, sorted[i]);
      assert multiset(sorted)[sorted[i]] <= 1;
      if sorted[i] == sorted[j] {
        CountOfTwo(sorted, i, j);
      }
    }
  }

  lemma InsertKeepsBest(bag: seq<Receipt>, history: seq<Receipt>, r: Receipt)
    requires BestKept(bag, history)
    ensures BestKept(Inserted(bag, r), history + [r])
  {
    hide SortDescending;
    if r !in bag {
      var sorted := SortDescending(bag + [r]);
      SortedBag(bag, r);
      if |bag| == MAX_RECEIPTS {
        InsertEvicts(bag, history, r, sorted);
      } else {
        assert sorted[..|sorted|] == sorted;
        FewKept(bag, history, r, sorted);
      }
    }
  }

  lemma FewKept(bag: seq<Receipt>, history: seq<Receipt>, r: Receipt, sorted: seq<Receipt>)
    requires BestKept(bag, history) && |bag| < MAX_RECEIPTS
    requires Descending(sorted) && NoDuplicates(sorted) && |sorted| == |bag| + 1
    requires forall x :: x in sorted <==> x in bag || x == r
    ensures BestKept(sorted, history + [r])
  {
    assert forall x :: x in history + [r] <==> x in history || x == r;
  }

  lemma InsertEvicts(bag: seq<Receipt>, history: seq<Receipt>, r: Receipt, sorted: seq<Receipt>)
    requires BestKept(bag, history) && |bag| == MAX_RECEIPTS
    requires Descending(sorted) && NoDuplicates(sorted) && |sorted| == MAX_RECEIPTS + 1
    requires forall x :: x in sorted <==> x in bag || x == r
    ensures BestKept(sorted[..MAX_RECEIPTS], history + [r])
  {
    hide Descending, NoDuplicates;
    var kept := sorted[..MAX_RECEIPTS];
    PrefixOfSorted(sorted, MAX_RECEIPTS);
    assert forall x :: x in history + [r] <==> x in history || x == r;
    forall x, b | x in history + [r] && x !in kept && b in kept
      ensures b.bytes >= x.bytes
    {
      AllLarger(bag, history, r, sorted, x, b);
    }
  }

  lemma PrefixOfSorted(sorted: seq<Receipt>, n: nat)
    requires Descending(sorted) && NoDuplicates(sorted) && n <= |sorted|
    ensures Descending(sorted[..n]) && NoDuplicates(sorted[..n]) && forall x :: x in sorted[..n] ==> x in sorted
  {
  }

  lemma AllLarger(bag: seq<Receipt>, history: seq<Receipt>, r: Receipt, sorted: seq<Receipt>, x: Receipt, b: Receipt)
    requires BestKept(bag, history) && |bag| == MAX_RECEIPTS
    requires Descending(sorted) && NoDuplicates(sorted) && |sorted| == MAX_RECEIPTS + 1
    requires forall y :: y in sorted <==> y in bag || y == r
    requires (x in history || x == r) && x !in sorted[..MAX_RECEIPTS] && b in sorted[..MAX_RECEIPTS]
    ensures b.bytes >= x.bytes
  {
    var i :| 0 <= i < MAX_RECEIPTS && sorted[..MAX_RECEIPTS][i] == b;
    var out := sorted[MAX_RECEIPTS];
    assert sorted[i] == b && b != out && b.bytes >= out.bytes;
    if x in sorted {
      var j :| 0 <= j < |sorted| && sorted[j] == x;
      assert j == MAX_RECEIPTS;
    } else {
      assert x in history && x !in bag;
      assert out in sorted && b in sorted;
      assert (if b == r then out else b) in bag;
    }
  }

  /** After any history of submissions the bag holds the best: at most fifty receipts, largest
      first, no receipt twice, and none larger than a kept one has been lost. */
  lemma {:induction false} BagKeepsLargest(history: seq<Receipt>)
    ensures BestKept(BagAfter(history), history)
  {
    hide Inserted, BestKept;
    if history == [] {
      assert BestKept([], []) by { EmptyBag(); }
    } else {
      var n := |history| - 1;
      BagKeepsLargest(history[..n]);
      InsertKeepsBest(BagAfter(history[..n]), history[..n], history[n]);
      assert history[..n] + [history[n]] == history;
    }
  }

  lemma EmptyBag()
    ensures BestKept([], [])
  {
  }

  lemma {:induction false} SortFixpoint(rs: seq<Receipt>)
    requires Descending(rs)
    ensures SortDescending(rs) == rs
  {
    hide Place;
    if rs != [] {
      var n := |rs| - 1;
      SortFixpoint(rs[..n]);
      PlaceLast(rs[..n], rs[n]);
      assert rs == rs[..n] + [rs[n]];
    }
  }

  lemma PlaceLast(rs: seq<Receipt>, r: Receipt)
    requires rs != [] ==> rs[|rs| - 1].bytes >= r.bytes
    ensures Place(rs, r) == rs + [r]
  {
  }

  /** The sort is stable where it matters: a full bag turns away a newcomer no larger than its
      smallest receipt, and stays as it is. */
  lemma FullBagKeepsTies(bag: seq<Receipt>, r: Receipt)
    requires Descending(bag) && |bag| == MAX_RECEIPTS && bag[MAX_RECEIPTS - 1].bytes >= r.bytes
    ensures Inserted(bag, r) == bag
  {
    hide Place;
    SortFixpoint(bag + [r]);
    assert (bag + [r])[..MAX_RECEIPTS] == bag;
  }
}
