/** The domain-separated binary Merkle tree over chunk hashes (crates/np2ptp-core/src/hash.rs).
    Odd nodes are carried up unchanged. The functions follow the code's levels; the methods
    below them are the code's loops. */
module Merkle {
  import opened Basics

  const LEAF_TAG: Byte := 0
  const NODE_TAG: Byte := 1
  const EMPTY_TAG: Byte := 2

  datatype ProofStep = ProofStep(siblingOnLeft: bool, hash: Digest)
  datatype MerkleProof = MerkleProof(index: nat, steps: seq<ProofStep>)

  function LeafInput(c: Digest): Bytes { [LEAF_TAG] + DigestBytes(c) }

  function NodeInput(l: Digest, r: Digest): Bytes { [NODE_TAG] + DigestBytes(l) + DigestBytes(r) }

  function LeafHash(h: HashFn, c: Digest): Digest { h(LeafInput(c)) }

  function NodeHash(h: HashFn, l: Digest, r: Digest): Digest { h(NodeInput(l, r)) }

  function Leaves(h: HashFn, xs: seq<Digest>): seq<Digest> {
    seq(|xs|, i requires 0 <= i < |xs| => LeafHash(h, xs[i]))
  }

  /** One level up: neighbours are hashed together, an odd last node is carried. */
  function NextLevel(h: HashFn, level: seq<Digest>): (next: seq<Digest>)
    ensures |next| == (|level| + 1) / 2
  {
    if |level| <= 1 then level
    else [NodeHash(h, level[0], level[1])] + NextLevel(h, level[2..])
  }

  function Levels(h: HashFn, level: seq<Digest>): (ls: seq<seq<Digest>>)
    ensures |ls| >= 1 && ls[0] == level
    ensures |level| > 0 ==> |ls[|ls| - 1]| == 1
    decreases |level|
  {
    if |level| <= 1 then [level] else [level] + Levels(h, NextLevel(h, level))
  }

  function Root(h: HashFn, xs: seq<Digest>): Digest {
    if xs == [] then h([EMPTY_TAG])
    else var ls := Levels(h, Leaves(h, xs)); ls[|ls| - 1][0]
  }

  function Sibling(i: nat): nat { if i % 2 == 0 then i + 1 else i - 1 }

  /** The sibling a proof for node `i` picks up at this level; none if the node is carried. */
  function StepAt(level: seq<Digest>, i: nat): seq<ProofStep> {
    var sib := Sibling(i);
    if sib < |level| then [ProofStep(sib < i, level[sib])] else []
  }

  /** The steps a proof for node `i` of `level` collects on the way to the top. */
  function LevelSteps(h: HashFn, level: seq<Digest>, i: nat): seq<ProofStep>
    requires i < |level|
    decreases |level|
  {
    if |level| <= 1 then [] else StepAt(level, i) + LevelSteps(h, NextLevel(h, level), i / 2)
  }

  function Proof(h: HashFn, xs: seq<Digest>, index: nat): Option<MerkleProof> {
    if index >= |xs| then None
    else Some(MerkleProof(index, LevelSteps(h, Leaves(h, xs), index)))
  }

  function StepInput(s: ProofStep, acc: Digest): Bytes {
    if s.siblingOnLeft then NodeInput(s.hash, acc) else NodeInput(acc, s.hash)
  }

  /** The running hash after `steps`, starting from the leaf hash of `c`. */
  function Climb(h: HashFn, c: Digest, steps: seq<ProofStep>): Digest {
    if steps == [] then LeafHash(h, c)
    else h(StepInput(steps[|steps| - 1], Climb(h, c, steps[..|steps| - 1])))
  }

  predicate Verify(h: HashFn, c: Digest, p: MerkleProof, root: Digest) {
    Climb(h, c, p.steps) == root
  }

  // ---- the code's loops ----

  method BuildNextLevel(h: HashFn, cur: seq<Digest>) returns (next: seq<Digest>)
    ensures next == NextLevel(h, cur)
  {
    next := [];
    var i := 0;
    while i < |cur|
      invariant 0 <= i <= |cur|
      invariant next + NextLevel(h, cur[i..]) == NextLevel(h, cur)
    {
      ghost var rest := cur[i..];
      if i + 1 < |cur| {
        assert rest[2..] == cur[i + 2..];
        ConcatAssoc(next, [NodeHash(h, cur[i], cur[i + 1])], NextLevel(h, cur[i + 2..]));
        next := next + [NodeHash(h, cur[i], cur[i + 1])];
        i := i + 2;
      } else {
        assert rest == [cur[i]] && cur[i + 1..] == [];
        next := next + [cur[i]];
        i := i + 1;
      }
    }
  }

  method BuildLevels(h: HashFn, chunkHashes: seq<Digest>) returns (levels: seq<seq<Digest>>)
    ensures levels == Levels(h, Leaves(h, chunkHashes))
  {
    hide NextLevel, Leaves;
    var cur := Leaves(h, chunkHashes);
    levels := [cur];
    ghost var below := [];
    while |cur| > 1
      invariant levels == below + [cur]
      invariant below + Levels(h, cur) == Levels(h, Leaves(h, chunkHashes))
      decreases |cur|
    {
      var next := BuildNextLevel(h, cur);
      ConcatAssoc(below, [cur], Levels(h, next));
      below := levels;
      cur := next;
      levels := levels + [cur];
    }
  }

  method MerkleRoot(h: HashFn, chunkHashes: seq<Digest>) returns (r: Digest)
    ensures r == Root(h, chunkHashes)
  {
    if |chunkHashes| == 0 {
      return h([EMPTY_TAG]);
    }
    var levels := BuildLevels(h, chunkHashes);
    r := levels[|levels| - 1][0];
  }

  /** The levels as the proof loop sees them: all but the last have two nodes or more, and
      each is followed by the one above it. */
  ghost predicate Ladder(h: HashFn, levels: seq<seq<Digest>>) {
    && |levels| >= 1
    && |levels[|levels| - 1]| == 1
    && forall k :: 0 <= k < |levels| - 1 ==> Rung(h, levels, k)
  }

  ghost predicate Rung(h: HashFn, levels: seq<seq<Digest>>, k: nat)
    requires k + 1 < |levels|
  {
    |levels[k]| > 1 && levels[k + 1] == NextLevel(h, levels[k])
  }

  lemma {:induction false} LevelsLadder(h: HashFn, level: seq<Digest>)
    requires |level| > 0
    ensures Ladder(h, Levels(h, level))
    decreases |level|
  {
    if |level| > 1 {
      var up := Levels(h, NextLevel(h, level));
      LevelsLadder(h, NextLevel(h, level));
      forall k | 0 <= k < |up|
        ensures Rung(h, [level] + up, k)
      {
        assert k == 0 || Rung(h, up, k - 1);
      }
    }
  }

  lemma StepUp(h: HashFn, level: seq<Digest>, i: nat)
    requires i < |level| && |level| > 1
    ensures LevelSteps(h, level, i) == StepAt(level, i) + LevelSteps(h, NextLevel(h, level), i / 2)
  {
  }

  method CollectSteps(h: HashFn, levels: seq<seq<Digest>>, index: nat) returns (steps: seq<ProofStep>)
    requires Ladder(h, levels) && index < |levels[0]|
    ensures steps == LevelSteps(h, levels[0], index)
  {
    steps := [];
    var idx: nat := index;
    for k := 0 to |levels| - 1
      invariant idx < |levels[k]|
      invariant steps + LevelSteps(h, levels[k], idx) == LevelSteps(h, levels[0], index)
    {
      assert Rung(h, levels, k);
      var level := levels[k];
      var sib := if idx % 2 == 0 then idx + 1 else idx - 1;
      ghost var before := steps;
      if sib < |level| {
        steps := steps + [ProofStep(sib < idx, level[sib])];
      }
      ghost var rest := LevelSteps(h, levels[k + 1], idx / 2);
      assert steps == before + StepAt(level, idx);
      StepUp(h, level, idx);
      ConcatAssoc(before, StepAt(level, idx), rest);
      idx := idx / 2;
    }
  }

  method BuildProof(h: HashFn, chunkHashes: seq<Digest>, index: nat) returns (p: Option<MerkleProof>)
    ensures p == Proof(h, chunkHashes, index)
  {
    if index >= |chunkHashes| {
      return None;
    }
    var levels := BuildLevels(h, chunkHashes);
    LevelsLadder(h, Leaves(h, chunkHashes));
    var steps := CollectSteps(h, levels, index);
    p := Some(MerkleProof(index, steps));
  }

  method VerifyProof(h: HashFn, c: Digest, p: MerkleProof, root: Digest) returns (ok: bool)
    ensures ok == Verify(h, c, p, root)
  {
    var acc := LeafHash(h, c);
    for k := 0 to |p.steps|
      invariant acc == Climb(h, c, p.steps[..k])
    {
      var step := p.steps[k];
      assert p.steps[..k + 1][..k] == p.steps[..k];
      acc := if step.siblingOnLeft then NodeHash(h, step.hash, acc) else NodeHash(h, acc, step.hash);
    }
    assert p.steps[..|p.steps|] == p.steps;
    ok := acc == root;
  }
}
