/** Bytes, digests, machine-integer bounds and the small sequence facts every other module shares. */
module Basics {

  newtype Byte = x: int | 0 <= x < 256
  type Bytes = seq<Byte>

  const U32_MAX: nat := 0xFFFF_FFFF
  const U64_MAX: nat := 0xFFFF_FFFF_FFFF_FFFF

  type U32 = x: nat | x <= U32_MAX
  type U64 = x: nat | x <= U64_MAX

  datatype Option<+T> = None | Some(value: T)
  datatype Result<+T, +E> = Ok(value: T) | Err(error: E)

  /** A 32-byte digest as the 256-bit number its bytes spell, and the content hash as an
      arbitrary function to digests. Nothing is assumed about it: results that need collision
      resistance name the two finite sets of hashed inputs between which a collision would lie. */
  newtype Digest = x: int | 0 <= x < 0x1_0000000000000000_0000000000000000_0000000000000000_0000000000000000
  type HashFn = Bytes -> Digest

  function Pow256(k: nat): nat {
    if k == 0 then 1 else 256 * Pow256(k - 1)
  }

  lemma {:induction false} Pow256Add(j: nat, k: nat)
    ensures Pow256(j + k) == Pow256(j) * Pow256(k)
  {
    if j > 0 {
      Pow256Add(j - 1, k);
    }
  }

  /** The `k` low-order bytes of `n`, most significant first. */
  function BigEndian(n: nat, k: nat): (bs: Bytes)
    ensures |bs| == k
  {
    if k == 0 then [] else BigEndian(n / 256, k - 1) + [(n % 256) as Byte]
  }

  lemma {:induction false} BigEndianInjective(m: nat, n: nat, k: nat)
    requires m < Pow256(k) && n < Pow256(k)
    requires BigEndian(m, k) == BigEndian(n, k)
    ensures m == n
  {
    if k > 0 {
      var bs, cs := BigEndian(m, k), BigEndian(n, k);
      assert bs[..k - 1] == BigEndian(m / 256, k - 1) && cs[..k - 1] == BigEndian(n / 256, k - 1);
      assert bs[k - 1] == cs[k - 1];
      BigEndianInjective(m / 256, n / 256, k - 1);
    }
  }

  function DigestBytes(d: Digest): (bs: Bytes)
    ensures |bs| == 32
  {
    BigEndian(d as nat, 32)
  }

  lemma DigestSpace()
    ensures Pow256(32) == 0x1_0000000000000000_0000000000000000_0000000000000000_0000000000000000
  {
    assert Pow256(8) == 0x1_0000000000000000;
    Pow256Add(8, 8);
    Pow256Add(16, 16);
  }

  lemma DigestBytesInjective(d: Digest, e: Digest)
    requires DigestBytes(d) == DigestBytes(e)
    ensures d == e
  {
    hide BigEndian, Pow256;
    DigestSpace();
    BigEndianInjective(d as nat, e as nat, 32);
  }

  ghost predicate Collide(h: HashFn, xs: set<Bytes>, ys: set<Bytes>) {
    exists x, y :: x in xs && y in ys && x != y && h(x) == h(y)
  }

  lemma CollideMono(h: HashFn, xs: set<Bytes>, ys: set<Bytes>, xs': set<Bytes>, ys': set<Bytes>)
    requires Collide(h, xs, ys)
    requires xs <= xs' && ys <= ys'
    ensures Collide(h, xs', ys')
  {
  }

  function SatAdd(x: U64, y: nat): U64 {
    if x + y <= U64_MAX then x + y else U64_MAX
  }

  function Min(x: nat, y: nat): nat {
    if x <= y then x else y
  }

  function Flatten<T>(ss: seq<seq<T>>): seq<T> {
    if ss == [] then [] else ss[0] + Flatten(ss[1..])
  }

  lemma ConcatAssoc<T>(a: seq<T>, b: seq<T>, c: seq<T>)
    ensures (a + b) + c == a + (b + c)
  {
  }

  lemma SliceSlice<T>(a: seq<T>, i: nat, j: nat)
    requires i <= j <= |a|
    ensures a[i..][..j - i] == a[i..j]
    ensures |a[i..]| - |a[j..]| == j - i
  {
  }

  lemma EmptyTail<T>(a: seq<T>)
    ensures a + [] == a
  {
  }

  lemma EmptyConcat<T>(a: seq<T>)
    ensures [] + a == a
  {
  }

  lemma FlattenAppend<T>(ss: seq<seq<T>>, ts: seq<seq<T>>)
    ensures Flatten(ss + ts) == Flatten(ss) + Flatten(ts)
  {
    if ss == [] {
      assert ss + ts == ts;
    } else {
      assert (ss + ts)[1..] == ss[1..] + ts;
      FlattenAppend(ss[1..], ts);
    }
  }

  lemma FlattenSnoc<T>(ss: seq<seq<T>>, s: seq<T>)
    ensures Flatten(ss + [s]) == Flatten(ss) + s
  {
    FlattenAppend(ss, [s]);
    assert Flatten([s]) == s + Flatten([][..]);
  }

  lemma MulMono(a: nat, b: nat, n: nat)
    requires a <= b
    ensures a * n <= b * n
  {
  }

  lemma MulSucc(a: int, n: int)
    ensures (a + 1) * n == a * n + n
  {
  }

  lemma DivUnique(x: nat, n: nat, q: nat)
    requires n > 0 && q * n <= x < q * n + n
    ensures x / n == q
  {
    var r := x / n;
    assert x == r * n + x % n;
    if r < q {
      MulMono(r + 1, q, n);
      MulSucc(r, n);
    } else if r > q {
      MulMono(q + 1, r, n);
      MulSucc(q, n);
    }
  }

  lemma DivStep(x: nat, n: nat)
    requires n > 0
    ensures (x + n) / n == x / n + 1
  {
    var q := x / n;
    assert x == q * n + x % n;
    MulSucc(q, n);
    DivUnique(x + n, n, q + 1);
  }
}
