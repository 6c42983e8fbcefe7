/** What the Merkle root commits to. The level-by-level construction is related to a tree of
    nodes; completeness, binding and proof soundness are then inductions on that tree. */
module MerkleTheorems {
  import opened Basics
  import opened Merkle

  datatype Tree = Leaf(chunk: Digest) | Node(left: Tree, right: Tree)

  ghost function Value(h: HashFn, t: Tree): Digest {
    match t
    case Leaf(c) => LeafHash(h, c)
    case Node(l, r) => NodeHash(h, Value(h, l), Value(h, r))
  }

  /** The chunk hashes under a tree, left to right. */
  ghost function Fringe(t: Tree): (f: seq<Digest>)
    ensures |f| > 0
  {
    match t
    case Leaf(c) => [c]
    case Node(l, r) => Fringe(l) + Fringe(r)
  }

  ghost function Fringes(ts: seq<Tree>): seq<Digest> {
    if ts == [] then [] else Fringe(ts[0]) + Fringes(ts[1..])
  }

  ghost function PairUp(ts: seq<Tree>): (us: seq<Tree>)
    ensures |us| == (|ts| + 1) / 2
  {
    if |ts| <= 1 then ts else [Node(ts[0], ts[1])] + PairUp(ts[2..])
  }

  lemma {:induction false} PairUpAt(ts: seq<Tree>, k: nat)
    requires k < (|ts| + 1) / 2
    ensures PairUp(ts)[k] == if 2 * k + 1 < |ts| then Node(ts[2 * k], ts[2 * k + 1]) else ts[2 * k]
  {
    if k > 0 {
      PairUpAt(ts[2..], k - 1);
      assert PairUp(ts)[k] == PairUp(ts[2..])[k - 1];
      assert 2 * k + 1 < |ts| ==> ts[2..][2 * k - 1] == ts[2 * k + 1];
      assert ts[2..][2 * k - 2] == ts[2 * k];
    }
  }

  ghost function Top(ts: seq<Tree>): Tree
    requires |ts| > 0
    decreases |ts|
  {
    if |ts| == 1 then ts[0] else Top(PairUp(ts))
  }

  ghost function LeafTrees(xs: seq<Digest>): seq<Tree> {
    seq(|xs|, i requires 0 <= i < |xs| => Leaf(xs[i]))
  }

  ghost function TreeOf(xs: seq<Digest>): Tree
    requires xs != []
  {
    Top(LeafTrees(xs))
  }

  ghost function Values(h: HashFn, ts: seq<Tree>): seq<Digest> {
    seq(|ts|, i requires 0 <= i < |ts| => Value(h, ts[i]))
  }

  // ---- levels of digests are the values of levels of trees ----

  lemma {:induction false} PairUpValues(h: HashFn, ts: seq<Tree>)
    ensures Values(h, PairUp(ts)) == NextLevel(h, Values(h, ts))
  {
    if |ts| >= 2 {
      var rest := ts[2..];
      PairUpValues(h, rest);
      assert Values(h, ts)[2..] == Values(h, rest);
      assert Values(h, PairUp(ts)) == [Value(h, Node(ts[0], ts[1]))] + Values(h, PairUp(rest));
    }
  }

  lemma {:induction false} TopValue(h: HashFn, ts: seq<Tree>)
    requires |ts| > 0
    ensures var ls := Levels(h, Values(h, ts)); ls[|ls| - 1] == [Value(h, Top(ts))]
    decreases |ts|
  {
    hide NextLevel, PairUp, Value;
    if |ts| > 1 {
      PairUpValues(h, ts);
      TopValue(h, PairUp(ts));
      LevelsUp(h, Values(h, ts));
    }
  }

  lemma LevelsUp(h: HashFn, level: seq<Digest>)
    requires |level| > 1
    ensures Levels(h, level) == [level] + Levels(h, NextLevel(h, level))
  {
  }

  lemma RootIsTreeValue(h: HashFn, xs: seq<Digest>)
    requires xs != []
    ensures Root(h, xs) == Value(h, TreeOf(xs))
  {
    assert Values(h, LeafTrees(xs)) == Leaves(h, xs);
    hide Top, NextLevel;
    TopValue(h, LeafTrees(xs));
  }

  // ---- the tree keeps the list ----

  lemma {:induction false} PairUpFringes(ts: seq<Tree>)
    ensures Fringes(PairUp(ts)) == Fringes(ts)
    decreases |ts|
  {
    if |ts| >= 2 {
      PairUpFringes(ts[2..]);
      assert PairUp(ts)[1..] == PairUp(ts[2..]);
      assert ts[1..][1..] == ts[2..];
      ConcatAssoc(Fringe(ts[0]), Fringe(ts[1]), Fringes(ts[2..]));
    }
  }

  lemma {:induction false} TopFringe(ts: seq<Tree>)
    requires |ts| > 0
    ensures Fringe(Top(ts)) == Fringes(ts)
    decreases |ts|
  {
    if |ts| == 1 {
      assert Fringes(ts[1..]) == [];
    } else {
      PairUpFringes(ts);
      TopFringe(PairUp(ts));
    }
  }

  lemma {:induction false} LeafFringes(xs: seq<Digest>)
    ensures Fringes(LeafTrees(xs)) == xs
  {
    if xs != [] {
      assert LeafTrees(xs)[1..] == LeafTrees(xs[1..]);
      LeafFringes(xs[1..]);
    }
  }

  lemma TreeFringe(xs: seq<Digest>)
    requires xs != []
    ensures Fringe(TreeOf(xs)) == xs
  {
    TopFringe(LeafTrees(xs));
    LeafFringes(xs);
  }

  // ---- binding ----

  /** Every byte string that is hashed to obtain the value of `t`. */
  ghost function TreeInputs(h: HashFn, t: Tree): set<Bytes> {
    match t
    case Leaf(c) => {LeafInput(c)}
    case Node(l, r) => TreeInputs(h, l) + TreeInputs(h, r) + {NodeInput(Value(h, l), Value(h, r))}
  }

  ghost function RootInputs(h: HashFn, xs: seq<Digest>): set<Bytes> {
    if xs == [] then {[EMPTY_TAG]} else TreeInputs(h, TreeOf(xs))
  }

  ghost function TopInput(h: HashFn, t: Tree): (x: Bytes)
    ensures h(x) == Value(h, t) && x in TreeInputs(h, t)
    ensures |x| > 0 && x[0] == if t.Leaf? then LEAF_TAG else NODE_TAG
  {
    match t
    case Leaf(c) => LeafInput(c)
    case Node(l, r) => NodeInput(Value(h, l), Value(h, r))
  }

  lemma NodeInputInjective(l: Digest, r: Digest, l': Digest, r': Digest)
    requires NodeInput(l, r) == NodeInput(l', r')
    ensures l == l' && r == r'
  {
    assert NodeInput(l, r)[1..33] == DigestBytes(l) && NodeInput(l, r)[33..] == DigestBytes(r);
    assert NodeInput(l', r')[1..33] == DigestBytes(l') && NodeInput(l', r')[33..] == DigestBytes(r');
    DigestBytesInjective(l, l');
    DigestBytesInjective(r, r');
  }

  lemma LeafInputInjective(c: Digest, c': Digest)
    requires LeafInput(c) == LeafInput(c')
    ensures c == c'
  {
    assert LeafInput(c)[1..] == DigestBytes(c) && LeafInput(c')[1..] == DigestBytes(c');
    DigestBytesInjective(c, c');
  }

  lemma {:induction false} TreeBinding(h: HashFn, t: Tree, u: Tree)
    requires Value(h, t) == Value(h, u)
    ensures t == u || Collide(h, TreeInputs(h, t), TreeInputs(h, u))
  {
    hide NodeInput, LeafInput;
    if TopInput(h, t) == TopInput(h, u) {
      match t
      case Leaf(c) => LeafInputInjective(c, u.chunk);
      case Node(l, r) =>
        NodeInputInjective(Value(h, l), Value(h, r), Value(h, u.left), Value(h, u.right));
        TreeBinding(h, l, u.left);
        TreeBinding(h, r, u.right);
    }
  }

  /** Two chunk lists of any lengths with the same root are the same list, or one of the inputs
      hashed for the first collides with one hashed for the second. */
  lemma RootBinding(h: HashFn, xs: seq<Digest>, ys: seq<Digest>)
    requires Root(h, xs) == Root(h, ys)
    ensures xs == ys || Collide(h, RootInputs(h, xs), RootInputs(h, ys))
  {
    if xs != [] { RootIsTreeValue(h, xs); TreeFringe(xs); }
    if ys != [] { RootIsTreeValue(h, ys); TreeFringe(ys); }
    if xs != [] && ys != [] {
      TreeBinding(h, TreeOf(xs), TreeOf(ys));
    } else if xs != [] {
      assert TopInput(h, TreeOf(xs)) != [EMPTY_TAG];
    } else if ys != [] {
      assert TopInput(h, TreeOf(ys)) != [EMPTY_TAG];
    }
  }

  // ---- proofs ----

  /** The proof steps of the `i`-th leaf, read off the tree from the leaf up. */
  ghost function TreeProof(h: HashFn, t: Tree, i: nat): seq<ProofStep>
    requires i < |Fringe(t)|
  {
    match t
    case Leaf(_) => []
    case Node(l, r) =>
      if i < |Fringe(l)| then TreeProof(h, l, i) + [ProofStep(false, Value(h, r))]
      else TreeProof(h, r, i - |Fringe(l)|) + [ProofStep(true, Value(h, l))]
  }

  lemma {:induction false} TreeProofClimbs(h: HashFn, t: Tree, i: nat)
    requires i < |Fringe(t)|
    ensures Climb(h, Fringe(t)[i], TreeProof(h, t, i)) == Value(h, t)
  {
    match t
    case Leaf(_) =>
    case Node(l, r) =>
      var steps := TreeProof(h, t, i);
      if i < |Fringe(l)| {
        TreeProofClimbs(h, l, i);
        assert steps[..|steps| - 1] == TreeProof(h, l, i);
      } else {
        TreeProofClimbs(h, r, i - |Fringe(l)|);
        assert steps[..|steps| - 1] == TreeProof(h, r, i - |Fringe(l)|);
      }
  }

  /** How many leaves lie left of node `i`. */
  ghost function Offset(ts: seq<Tree>, i: nat): nat
    requires i <= |ts|
  {
    if i == 0 then 0 else Offset(ts, i - 1) + |Fringe(ts[i - 1])|
  }

  /** Where leaf `j` of node `i` lies within the node above it. */
  ghost function Within(ts: seq<Tree>, i: nat, j: nat): nat
    requires i < |ts|
  {
    if i % 2 == 0 then j else |Fringe(ts[i - 1])| + j
  }

  /** The same steps, with those above the tree passed down. */
  ghost function TreePath(h: HashFn, t: Tree, i: nat, above: seq<ProofStep>): seq<ProofStep>
    requires i < |Fringe(t)|
  {
    match t
    case Leaf(_) => above
    case Node(l, r) =>
      if i < |Fringe(l)| then TreePath(h, l, i, [ProofStep(false, Value(h, r))] + above)
      else TreePath(h, r, i - |Fringe(l)|, [ProofStep(true, Value(h, l))] + above)
  }

  lemma {:induction false} TreePathIsProof(h: HashFn, t: Tree, i: nat, above: seq<ProofStep>)
    requires i < |Fringe(t)|
    ensures TreePath(h, t, i, above) == TreeProof(h, t, i) + above
  {
    match t
    case Leaf(_) => EmptyConcat(above);
    case Node(l, r) =>
      if i < |Fringe(l)| {
        TreePathIsProof(h, l, i, [ProofStep(false, Value(h, r))] + above);
        ConcatAssoc(TreeProof(h, l, i), [ProofStep(false, Value(h, r))], above);
      } else {
        TreePathIsProof(h, r, i - |Fringe(l)|, [ProofStep(true, Value(h, l))] + above);
        ConcatAssoc(TreeProof(h, r, i - |Fringe(l)|), [ProofStep(true, Value(h, l))], above);
      }
  }

  lemma PathOneUp(h: HashFn, ts: seq<Tree>, i: nat, j: nat, above: seq<ProofStep>)
    requires i < |ts| && j < |Fringe(ts[i])|
    ensures i / 2 < |PairUp(ts)|
    ensures Within(ts, i, j) < |Fringe(PairUp(ts)[i / 2])|
    ensures TreePath(h, PairUp(ts)[i / 2], Within(ts, i, j), above)
      == TreePath(h, ts[i], j, StepAt(Values(h, ts), i) + above)
  {
    PairUpAt(ts, i / 2);
    var up := PairUp(ts)[i / 2];
    if i % 2 == 0 {
      if i + 1 < |ts| {
        assert up == Node(ts[i], ts[i + 1]);
      } else {
        assert up == ts[i];
        EmptyConcat(above);
      }
    } else {
      assert up == Node(ts[i - 1], ts[i]);
    }
  }

  lemma {:induction false} OffsetPairUp(ts: seq<Tree>, k: nat)
    requires 2 * k <= |ts|
    ensures k <= |PairUp(ts)| && Offset(PairUp(ts), k) == Offset(ts, 2 * k)
  {
    if k > 0 {
      OffsetPairUp(ts, k - 1);
      PairUpAt(ts, k - 1);
      assert Offset(ts, 2 * k) == Offset(ts, 2 * k - 1) + |Fringe(ts[2 * k - 1])|;
    }
  }

  lemma OffsetOneUp(ts: seq<Tree>, i: nat, j: nat)
    requires i < |ts|
    ensures i / 2 <= |PairUp(ts)|
    ensures Offset(PairUp(ts), i / 2) + Within(ts, i, j) == Offset(ts, i) + j
  {
    OffsetPairUp(ts, i / 2);
  }

  /** Climbing levels from node `i` collects what the tree lists above node `i`. */
  lemma {:induction false} LevelStepsInTree(h: HashFn, ts: seq<Tree>, i: nat, j: nat)
    requires i < |ts| && j < |Fringe(ts[i])|
    ensures Offset(ts, i) + j < |Fringe(Top(ts))|
    ensures TreePath(h, Top(ts), Offset(ts, i) + j, []) == TreePath(h, ts[i], j, LevelSteps(h, Values(h, ts), i))
    decreases |ts|
  {
    hide NodeHash, LeafHash, NextLevel, PairUp, Value, Fringe;
    if |ts| == 1 {
      assert Offset(ts, 0) == 0 && Top(ts) == ts[0] && LevelSteps(h, Values(h, ts), 0) == [];
    } else {
      var above := LevelSteps(h, NextLevel(h, Values(h, ts)), i / 2);
      PathOneUp(h, ts, i, j, above);
      OffsetOneUp(ts, i, j);
      LevelStepsInTree(h, PairUp(ts), i / 2, Within(ts, i, j));
      PairUpValues(h, ts);
      StepUp(h, Values(h, ts), i);
    }
  }

  lemma {:induction false} LeafOffset(xs: seq<Digest>, i: nat)
    requires i <= |xs|
    ensures Offset(LeafTrees(xs), i) == i
  {
    if i > 0 {
      LeafOffset(xs, i - 1);
    }
  }

  lemma LeafValues(h: HashFn, xs: seq<Digest>)
    ensures Values(h, LeafTrees(xs)) == Leaves(h, xs)
  {
  }

  lemma LeafPath(h: HashFn, c: Digest, above: seq<ProofStep>)
    ensures |Fringe(Leaf(c))| == 1 && TreePath(h, Leaf(c), 0, above) == above
  {
  }

  /** The proof the code's level walk produces is the tree's proof for that position. */
  lemma ProofIsTreeProof(h: HashFn, xs: seq<Digest>, i: nat)
    requires i < |xs|
    ensures |Fringe(TreeOf(xs))| == |xs|
    ensures Proof(h, xs, i) == Some(MerkleProof(i, TreeProof(h, TreeOf(xs), i)))
  {
    hide NodeHash, LeafHash, PairUp, Top, TreeProof, TreePath, Value, LevelSteps;
    TreeFringe(xs);
    LeafOffset(xs, i);
    var ts := LeafTrees(xs);
    LeafValues(h, xs);
    LevelStepsInTree(h, ts, i, 0);
    LeafPath(h, xs[i], LevelSteps(h, Values(h, ts), i));
    TreePathIsProof(h, TreeOf(xs), i, []);
    EmptyTail(TreeProof(h, TreeOf(xs), i));
  }

  /** Completeness, for every list, position and hash: the climb from the true chunk hash ends
      exactly at the root, so a proof is accepted by a root if and only if it is this root. */
  lemma ProofComplete(h: HashFn, xs: seq<Digest>, i: nat, root: Digest)
    requires i < |xs|
    ensures Proof(h, xs, i).Some?
    ensures Verify(h, xs[i], Proof(h, xs, i).value, root) <==> root == Root(h, xs)
  {
    ProofIsTreeProof(h, xs, i);
    TreeFringe(xs);
    TreeProofClimbs(h, TreeOf(xs), i);
    RootIsTreeValue(h, xs);
  }

  /** Every byte string `Verify` hashes on its way up. */
  ghost function ClimbInputs(h: HashFn, c: Digest, steps: seq<ProofStep>): (s: set<Bytes>)
    ensures ClimbTop(h, c, steps) in s
  {
    if steps == [] then {LeafInput(c)}
    else ClimbInputs(h, c, steps[..|steps| - 1]) + {ClimbTop(h, c, steps)}
  }

  ghost function ClimbTop(h: HashFn, c: Digest, steps: seq<ProofStep>): (x: Bytes)
    ensures h(x) == Climb(h, c, steps)
    ensures |x| > 0 && x[0] == if steps == [] then LEAF_TAG else NODE_TAG
  {
    if steps == [] then LeafInput(c)
    else StepInput(steps[|steps| - 1], Climb(h, c, steps[..|steps| - 1]))
  }

  lemma ClimbInputsGrow(h: HashFn, c: Digest, below: seq<ProofStep>, last: ProofStep)
    ensures ClimbInputs(h, c, below) <= ClimbInputs(h, c, below + [last])
    ensures Climb(h, c, below + [last]) == h(StepInput(last, Climb(h, c, below)))
    ensures ClimbTop(h, c, below + [last]) == StepInput(last, Climb(h, c, below))
  {
    hide StepInput;
    assert (below + [last])[..|below|] == below;
  }

  lemma ProofAbove(h: HashFn, l: Tree, r: Tree, onLeft: bool, i: nat)
    requires i < |Fringe(if onLeft then l else r)|
    ensures var k := if onLeft then i else |Fringe(l)| + i;
      && k < |Fringe(Node(l, r))|
      && Fringe(Node(l, r))[k] == Fringe(if onLeft then l else r)[i]
      && TreeProof(h, Node(l, r), k)
        == TreeProof(h, if onLeft then l else r, i) + [ProofStep(!onLeft, Value(h, if onLeft then r else l))]
  {
    hide NodeHash;
  }

  lemma {:induction false} ClimbSound(h: HashFn, t: Tree, c: Digest, steps: seq<ProofStep>) returns (i: nat)
    requires Climb(h, c, steps) == Value(h, t)
    ensures Collide(h, TreeInputs(h, t), ClimbInputs(h, c, steps))
         || (i < |Fringe(t)| && Fringe(t)[i] == c && steps == TreeProof(h, t, i))
    decreases t
  {
    hide NodeInput, LeafInput, ClimbInputs, Climb, Collide, TreeProof, Fringe, TopInput, ClimbTop, TreeInputs, Value;
    i := 0;
    if TopInput(h, t) != ClimbTop(h, c, steps) {
      TopsCollide(h, t, c, steps);
    } else if t.Leaf? {
      LeafClimb(h, t.chunk, c, steps);
    } else {
      NodeClimb(h, t.left, t.right, c, steps);
      var below, last := steps[..|steps| - 1], steps[|steps| - 1];
      var t' := if last.siblingOnLeft then t.right else t.left;
      i := ClimbSound(h, t', c, below);
      if Collide(h, TreeInputs(h, t'), ClimbInputs(h, c, below)) {
        CollideMono(h, TreeInputs(h, t'), ClimbInputs(h, c, below), TreeInputs(h, t), ClimbInputs(h, c, steps));
      } else {
        ProofAbove(h, t.left, t.right, !last.siblingOnLeft, i);
        i := if last.siblingOnLeft then |Fringe(t.left)| + i else i;
      }
    }
  }

  lemma TopsCollide(h: HashFn, t: Tree, c: Digest, steps: seq<ProofStep>)
    requires Climb(h, c, steps) == Value(h, t) && TopInput(h, t) != ClimbTop(h, c, steps)
    ensures Collide(h, TreeInputs(h, t), ClimbInputs(h, c, steps))
  {
    hide NodeInput, LeafInput, ClimbInputs, Climb;
    assert TopInput(h, t) in TreeInputs(h, t) && ClimbTop(h, c, steps) in ClimbInputs(h, c, steps);
  }

  lemma LeafClimb(h: HashFn, c': Digest, c: Digest, steps: seq<ProofStep>)
    requires TopInput(h, Leaf(c')) == ClimbTop(h, c, steps)
    ensures c == c' && |Fringe(Leaf(c'))| == 1 && Fringe(Leaf(c'))[0] == c && steps == TreeProof(h, Leaf(c'), 0)
  {
    hide NodeInput, LeafInput, Climb;
    LeafInputInjective(c, c');
  }

  /** The last step of a climb to a node is between its two children. */
  lemma NodeClimb(h: HashFn, l: Tree, r: Tree, c: Digest, steps: seq<ProofStep>)
    requires TopInput(h, Node(l, r)) == ClimbTop(h, c, steps)
    ensures steps != []
    ensures var below, last := steps[..|steps| - 1], steps[|steps| - 1];
      && steps == below + [last]
      && Climb(h, c, below) == Value(h, if last.siblingOnLeft then r else l)
      && last.hash == Value(h, if last.siblingOnLeft then l else r)
      && TreeInputs(h, if last.siblingOnLeft then r else l) <= TreeInputs(h, Node(l, r))
      && ClimbInputs(h, c, below) <= ClimbInputs(h, c, steps)
  {
    hide NodeInput, LeafInput, ClimbInputs, Climb;
    var below, last := steps[..|steps| - 1], steps[|steps| - 1];
    assert steps == below + [last];
    ClimbInputsGrow(h, c, below, last);
    if last.siblingOnLeft {
      NodeInputInjective(Value(h, l), Value(h, r), last.hash, Climb(h, c, below));
    } else {
      NodeInputInjective(Value(h, l), Value(h, r), Climb(h, c, below), last.hash);
    }
  }

  lemma {:induction false} TreeProofInjective(h: HashFn, t: Tree, i: nat, j: nat)
    requires i < |Fringe(t)| && j < |Fringe(t)|
    requires TreeProof(h, t, i) == TreeProof(h, t, j)
    ensures i == j
  {
    match t
    case Leaf(_) =>
    case Node(l, r) =>
      var p, q := TreeProof(h, t, i), TreeProof(h, t, j);
      var n := |Fringe(l)|;
      assert p[|p| - 1] == q[|q| - 1];
      if i < n {
        assert p[..|p| - 1] == TreeProof(h, l, i) && q[..|q| - 1] == TreeProof(h, l, j);
        TreeProofInjective(h, l, i, j);
      } else {
        assert p[..|p| - 1] == TreeProof(h, r, i - n) && q[..|q| - 1] == TreeProof(h, r, j - n);
        TreeProofInjective(h, r, i - n, j - n);
      }
  }

  /** `c` sits at position `i` of `xs` and `steps` are the steps the prover gives for it. */
  ghost predicate Proves(h: HashFn, xs: seq<Digest>, i: nat, c: Digest, steps: seq<ProofStep>) {
    i < |xs| && xs[i] == c && Proof(h, xs, i) == Some(MerkleProof(i, steps))
  }

  /** Soundness: whatever a verifier accepts under the root of `xs`, its steps are those of
      exactly one position, and the chunk is the one at that position, or hashed inputs collide.
      The `index` field a proof carries plays no part. */
  lemma ProofSound(h: HashFn, xs: seq<Digest>, c: Digest, p: MerkleProof)
    requires Verify(h, c, p, Root(h, xs))
    ensures Collide(h, RootInputs(h, xs), ClimbInputs(h, c, p.steps))
         || exists i :: Proves(h, xs, i, c, p.steps) && forall j :: Proves(h, xs, j, c, p.steps) ==> j == i
  {
    if xs == [] {
      assert ClimbTop(h, c, p.steps) != [EMPTY_TAG];
    } else {
      RootIsTreeValue(h, xs);
      var i := ClimbSound(h, TreeOf(xs), c, p.steps);
      if !Collide(h, RootInputs(h, xs), ClimbInputs(h, c, p.steps)) {
        TreeFringe(xs);
        ProofIsTreeProof(h, xs, i);
        assert Proves(h, xs, i, c, p.steps);
        forall j | Proves(h, xs, j, c, p.steps)
          ensures j == i
        {
          ProofIsTreeProof(h, xs, j);
          TreeProofInjective(h, TreeOf(xs), i, j);
        }
      }
    }
  }

  // ---- the level walk against the recursive definition of the tree ----

  ghost function Pow2(e: nat): (k: nat)
    ensures k >= 1
  {
    if e == 0 then 1 else 2 * Pow2(e - 1)
  }

  /** Where the levels split a list: see `SplitPointIsPowerOfTwo`. */
  ghost function SplitPoint(n: nat): (k: nat)
    requires n >= 2
    ensures 1 <= k < n
  {
    if n == 2 then 1 else 2 * SplitPoint((n + 1) / 2)
  }

  /** It is the largest power of two strictly below the length. */
  lemma {:induction false} SplitPointIsPowerOfTwo(n: nat) returns (e: nat)
    requires n >= 2
    ensures SplitPoint(n) == Pow2(e) && Pow2(e) < n <= 2 * Pow2(e)
  {
    if n == 2 {
      e := 0;
    } else {
      e := SplitPointIsPowerOfTwo((n + 1) / 2);
      e := e + 1;
    }
  }

  lemma {:induction false} Pow2Grows(a: nat, b: nat)
    requires a < b
    ensures 2 * Pow2(a) <= Pow2(b)
    decreases b
  {
    if a < b - 1 {
      Pow2Grows(a, b - 1);
    }
  }

  /** There is only one. */
  lemma SplitPointUnique(n: nat, e: nat)
    requires n >= 2 && Pow2(e) < n <= 2 * Pow2(e)
    ensures SplitPoint(n) == Pow2(e)
  {
    var f := SplitPointIsPowerOfTwo(n);
    if e < f {
      Pow2Grows(e, f);
    } else if f < e {
      Pow2Grows(f, e);
    }
  }

  /** The tree by top-down splitting, with no notion of levels (as in section 2.1 of RFC 6962). */
  ghost function SplitTree(xs: seq<Digest>): Tree
    requires xs != []
    decreases |xs|
  {
    if |xs| == 1 then Leaf(xs[0])
    else var k := SplitPoint(|xs|); Node(SplitTree(xs[..k]), SplitTree(xs[k..]))
  }

  lemma TopUp(ts: seq<Tree>)
    requires |ts| > 0
    ensures Top(PairUp(ts)) == Top(ts)
  {
  }

  lemma TopOfTwo(t: Tree, u: Tree)
    ensures Top([t]) == t && Top([u]) == u && Top([t, u]) == Node(t, u)
  {
    assert PairUp([t, u]) == [Node(t, u)];
    assert Top([Node(t, u)]) == Node(t, u);
  }

  lemma {:induction false} PairUpAppend(ts: seq<Tree>, us: seq<Tree>)
    requires |ts| % 2 == 0
    ensures PairUp(ts + us) == PairUp(ts) + PairUp(us)
  {
    if ts == [] {
      assert ts + us == us && PairUp(ts) + PairUp(us) == PairUp(us);
    } else {
      PairUpAppend(ts[2..], us);
      assert (ts + us)[2..] == ts[2..] + us;
      ConcatAssoc([Node(ts[0], ts[1])], PairUp(ts[2..]), PairUp(us));
    }
  }

  lemma {:induction false} TopSplits(ts: seq<Tree>)
    requires |ts| >= 2
    ensures var k := SplitPoint(|ts|); Top(ts) == Node(Top(ts[..k]), Top(ts[k..]))
    decreases |ts|
  {
    hide PairUp, Top;
    if |ts| == 2 {
      TopOfTwo(ts[0], ts[1]);
      assert ts == [ts[0], ts[1]] && ts[..1] == [ts[0]] && ts[1..] == [ts[1]];
    } else {
      var k := SplitPoint(|ts|);
      var left, right := PairUp(ts[..k]), PairUp(ts[k..]);
      PairUpAppend(ts[..k], ts[k..]);
      assert ts[..k] + ts[k..] == ts;
      assert (left + right)[..k / 2] == left && (left + right)[k / 2..] == right;
      TopSplits(left + right);
      TopUp(ts);
      TopUp(ts[..k]);
      TopUp(ts[k..]);
    }
  }

  lemma {:induction false} LevelTreeIsSplitTree(xs: seq<Digest>)
    requires xs != []
    ensures TreeOf(xs) == SplitTree(xs)
    decreases |xs|
  {
    if |xs| > 1 {
      var k := SplitPoint(|xs|);
      TopSplits(LeafTrees(xs));
      assert LeafTrees(xs)[..k] == LeafTrees(xs[..k]);
      assert LeafTrees(xs)[k..] == LeafTrees(xs[k..]);
      LevelTreeIsSplitTree(xs[..k]);
      LevelTreeIsSplitTree(xs[k..]);
    }
  }

  /** Carrying odd nodes level by level computes the root of the split tree. */
  lemma RootIsSplitRoot(h: HashFn, xs: seq<Digest>)
    requires xs != []
    ensures Root(h, xs) == Value(h, SplitTree(xs))
  {
    RootIsTreeValue(h, xs);
    LevelTreeIsSplitTree(xs);
  }

  /** The root satisfies the recursion of section 2.1 of RFC 6962: a longer list splits at the largest
      power of two below its length, and its root is the node over the roots of the two parts. */
  lemma RootRecursion(h: HashFn, xs: seq<Digest>, e: nat)
    requires |xs| >= 2 && Pow2(e) < |xs| <= 2 * Pow2(e)
    ensures Root(h, xs) == h(NodeInput(Root(h, xs[..Pow2(e)]), Root(h, xs[Pow2(e)..])))
  {
    hide Root, NodeInput, Pow2, SplitPoint;
    SplitPointUnique(|xs|, e);
    var k := Pow2(e);
    RootIsSplitRoot(h, xs);
    RootIsSplitRoot(h, xs[..k]);
    RootIsSplitRoot(h, xs[k..]);
  }

  /** And the root of one chunk is its leaf hash. */
  lemma RootOfOne(h: HashFn, c: Digest)
    ensures Root(h, [c]) == h(LeafInput(c))
  {
    RootIsSplitRoot(h, [c]);
    hide Root, LeafInput;
  }
}
