/** Merkle trees over a digest function: construction, audit proofs and their verification. */
module Merkle {
  import opened Wrappers
  import opened Bytes
  import MerkleShape

  /** A digest function with digests of one length, such as raw SHA3-256. */
  datatype Hash = Hash(digest: Bytes -> Bytes, size: nat)

  ghost predicate FixedLength(h: Hash) {
    forall data :: |h.digest(data)| == h.size
  }

  datatype Direction = Left | Right

  datatype Step = Step(sibling: Bytes, direction: Direction)

  /** Parents of a level; an odd last node is paired with itself. */
  function Parent(h: Hash, level: seq<Bytes>, i: nat): Bytes
    requires 2 * i < |level|
  {
    h.digest(level[2 * i] + if 2 * i + 1 < |level| then level[2 * i + 1] else level[2 * i])
  }

  function NextLevel(h: Hash, level: seq<Bytes>): (next: seq<Bytes>)
    ensures |next| == (|level| + 1) / 2
  {
    seq((|level| + 1) / 2, i requires 0 <= i < (|level| + 1) / 2 => Parent(h, level, i))
  }

  /** All levels from the given one up to the root. */
  function Levels(h: Hash, level: seq<Bytes>): (levels: seq<seq<Bytes>>)
    ensures levels != [] && levels[0] == level
    decreases |level|
  {
    if |level| <= 1 then [level] else [level] + Levels(h, NextLevel(h, level))
  }

  function Root(h: Hash, level: seq<Bytes>): Bytes
    requires level != []
    decreases |level|
  {
    if |level| == 1 then level[0] else Root(h, NextLevel(h, level))
  }

  function ProofStep(level: seq<Bytes>, idx: nat): Step
    requires idx < |level|
  {
    if idx % 2 == 1 then Step(level[idx - 1], Left)
    else Step(if idx + 1 < |level| then level[idx + 1] else level[idx], Right)
  }

  function Pairing(h: Hash): (Bytes, Bytes) -> Bytes {
    (left: Bytes, right: Bytes) => h.digest(left + right)
  }

  /**
   The root seen from above: it is the digest of the roots of two halves, of which the left one is full and the right
   one is taken to be the left one if it has no nodes.
   */
  lemma {:induction false} RootFromAbove(h: Hash, level: seq<Bytes>, height: nat)
    requires level != [] && MerkleShape.IsHeight(|level|, height)
    ensures Root(h, level) == MerkleShape.Top(Pairing(h), level, height)
    decreases |level|
  {
    if |level| > 1 {
      assert NextLevel(h, level) == MerkleShape.Up(Pairing(h), level);
      MerkleShape.HeightOfUp(|level|, height);
      MerkleShape.TopOfUp(Pairing(h), level, height);
      hide MerkleShape.Top, MerkleShape.Up;
      RootFromAbove(h, NextLevel(h, level), height - 1);
    } else {
      assert Pow(2, 0) == 1;
    }
  }

  /** The audit path of node `idx`. */
  function Proof(h: Hash, level: seq<Bytes>, idx: nat): seq<Step>
    requires idx < |level|
    decreases |level|
  {
    if |level| == 1 then [] else [ProofStep(level, idx)] + Proof(h, NextLevel(h, level), idx / 2)
  }

  /** The path is as long as the tree is high. */
  lemma {:induction false} ProofLength(h: Hash, level: seq<Bytes>, idx: nat)
    requires idx < |level|
    ensures MerkleShape.IsHeight(|level|, |Proof(h, level, idx)|)
    decreases |level|
  {
    ProofUnfold(h, level, idx);
    if |level| > 1 {
      ProofLength(h, NextLevel(h, level), idx / 2);
      hide *;
      MerkleShape.HeightAbove(|level|, |Proof(h, NextLevel(h, level), idx / 2)|);
    } else {
      assert Pow(2, 0) == 1;
    }
    hide *;
  }

  predicate FromLeft(s: Step) {
    s.direction == Left
  }

  /** Which of the steps have their sibling on the left. */
  function Sides(proof: seq<Step>): seq<bool> {
    seq(|proof|, i requires 0 <= i < |proof| => FromLeft(proof[i]))
  }

  lemma SidesStep(level: seq<Bytes>, idx: nat, rest: seq<Step>)
    requires idx < |level|
    ensures Sides([ProofStep(level, idx)] + rest) == [idx % 2 == 1] + Sides(rest)
  {
  }

  /** The sibling stands on the left exactly where the index has a one bit. */
  lemma {:induction false} ProofSides(h: Hash, level: seq<Bytes>, idx: nat)
    requires idx < |level|
    ensures Sides(Proof(h, level, idx)) == MerkleShape.LowBits(idx, |Proof(h, level, idx)|)
    decreases |level|
  {
    ProofUnfold(h, level, idx);
    if |level| > 1 {
      ProofSides(h, NextLevel(h, level), idx / 2);
      SidesStep(level, idx, Proof(h, NextLevel(h, level), idx / 2));
    }
    hide Proof, Sides, NextLevel, ProofStep;
  }

  function Joined(current: Bytes, s: Step): Bytes {
    if s.direction == Left then s.sibling + current else current + s.sibling
  }

  function Climb(h: Hash, current: Bytes, proof: seq<Step>): Bytes
    decreases |proof|
  {
    if proof == [] then current else Climb(h, h.digest(Joined(current, proof[0])), proof[1..])
  }

  predicate Verified(h: Hash, leaf: Bytes, proof: seq<Step>, root: Bytes) {
    Climb(h, h.digest(leaf), proof) == root
  }

  /** What a proof step hashes: a left sibling goes in front. */
  lemma ShortProofs(h: Hash, leaf: Bytes, sibling: Bytes, rest: seq<Step>, root: Bytes)
    ensures Verified(h, leaf, [], root) <==> root == h.digest(leaf)
    ensures Climb(h, leaf, [Step(sibling, Left)] + rest) == Climb(h, h.digest(sibling + leaf), rest)
    ensures Climb(h, leaf, [Step(sibling, Right)] + rest) == Climb(h, h.digest(leaf + sibling), rest)
  {
    assert forall s: Step :: ([s] + rest)[1..] == rest;
  }

  function LeafHashes(h: Hash, leaves: seq<Bytes>): (l: seq<Bytes>)
    ensures |l| == |leaves|
  {
    seq(|leaves|, i requires 0 <= i < |leaves| => h.digest(leaves[i]))
  }

  // ---------------------------------------------------------------- completeness and binding

  /** Climbing the path of a node of a level reaches the root above that level. */
  lemma {:induction false} ClimbReachesRoot(h: Hash, level: seq<Bytes>, idx: nat)
    requires idx < |level|
    ensures Climb(h, level[idx], Proof(h, level, idx)) == Root(h, level)
    decreases |level|
  {
    if |level| > 1 {
      var next, proof := NextLevel(h, level), Proof(h, level, idx);
      assert next[idx / 2] == Parent(h, level, idx / 2);
      assert h.digest(Joined(level[idx], proof[0])) == next[idx / 2];
      assert proof[1..] == Proof(h, next, idx / 2);
      ClimbReachesRoot(h, next, idx / 2);
    }
  }

  /** For every nonempty leaf list and every index, the generated proof verifies. */
  lemma Complete(h: Hash, leaves: seq<Bytes>, idx: nat)
    requires idx < |leaves|
    ensures Verified(h, leaves[idx], Proof(h, LeafHashes(h, leaves), idx), Root(h, LeafHashes(h, leaves)))
  {
    ClimbReachesRoot(h, LeafHashes(h, leaves), idx);
  }

  predicate SameDirections(p: seq<Step>, q: seq<Step>) {
    |p| == |q| && forall i :: 0 <= i < |p| ==> p[i].direction == q[i].direction
  }

  /** The byte strings a path hashes. */
  function ClimbInputs(h: Hash, current: Bytes, proof: seq<Step>): seq<Bytes>
    decreases |proof|
  {
    if proof == [] then [] else
      var joined := Joined(current, proof[0]);
      [joined] + ClimbInputs(h, h.digest(joined), proof[1..])
  }

  /** Two different strings with one digest, one out of each list. */
  ghost predicate CollisionBetween(h: Hash, xs: seq<Bytes>, ys: seq<Bytes>) {
    exists i, j :: 0 <= i < |xs| && 0 <= j < |ys| && xs[i] != ys[j] && h.digest(xs[i]) == h.digest(ys[j])
  }

  lemma CollisionBehind(h: Hash, xs: seq<Bytes>, ys: seq<Bytes>, x: Bytes, y: Bytes)
    requires CollisionBetween(h, xs, ys)
    ensures CollisionBetween(h, [x] + xs, [y] + ys)
  {
    var i, j :| 0 <= i < |xs| && 0 <= j < |ys| && xs[i] != ys[j] && h.digest(xs[i]) == h.digest(ys[j]);
    assert ([x] + xs)[i + 1] == xs[i] && ([y] + ys)[j + 1] == ys[j];
  }

  lemma CollisionAhead(h: Hash, xs: seq<Bytes>, ys: seq<Bytes>, x: Bytes, y: Bytes)
    requires x != y && h.digest(x) == h.digest(y)
    ensures CollisionBetween(h, [x] + xs, [y] + ys)
  {
    assert ([x] + xs)[0] == x && ([y] + ys)[0] == y;
  }

  lemma JoinedInjective(h: Hash, c1: Bytes, s1: Step, c2: Bytes, s2: Step)
    requires |c1| == |c2| && s1.direction == s2.direction && Joined(c1, s1) == Joined(c2, s2)
    ensures c1 == c2
  {
    var j1, j2 := Joined(c1, s1), Joined(c2, s2);
    if s1.direction == Left {
      assert c1 == j1[|j1| - |c1|..] && c2 == j2[|j2| - |c2|..];
    } else {
      assert c1 == j1[..|c1|] && c2 == j2[..|c2|];
    }
  }

  /** Paths that meet either started alike or hash two different strings to one digest. */
  lemma {:induction false} ClimbInjective(h: Hash, c1: Bytes, p1: seq<Step>, c2: Bytes, p2: seq<Step>)
    requires FixedLength(h) && |c1| == |c2| == h.size && SameDirections(p1, p2)
    requires Climb(h, c1, p1) == Climb(h, c2, p2)
    ensures c1 == c2 || CollisionBetween(h, ClimbInputs(h, c1, p1), ClimbInputs(h, c2, p2))
    decreases |p1|
  {
    if p1 != [] {
      var j1, j2 := Joined(c1, p1[0]), Joined(c2, p2[0]);
      var d1, d2 := h.digest(j1), h.digest(j2);
      ClimbInjective(h, d1, p1[1..], d2, p2[1..]);
      hide CollisionBetween, Joined;
      if d1 != d2 {
        CollisionBehind(h, ClimbInputs(h, d1, p1[1..]), ClimbInputs(h, d2, p2[1..]), j1, j2);
      } else if j1 != j2 {
        CollisionAhead(h, ClimbInputs(h, d1, p1[1..]), ClimbInputs(h, d2, p2[1..]), j1, j2);
      } else {
        JoinedInjective(h, c1, p1[0], c2, p2[0]);
      }
    }
  }

  /**
   Binding: two different leaves accepted for one root by proofs with the same directions hash, on the
   way, two different strings to the same digest. The siblings may be arbitrary.
   */
  lemma Binding(h: Hash, leaf1: Bytes, p1: seq<Step>, leaf2: Bytes, p2: seq<Step>, root: Bytes)
    requires FixedLength(h) && SameDirections(p1, p2)
    requires Verified(h, leaf1, p1, root) && Verified(h, leaf2, p2, root)
    requires leaf1 != leaf2
    ensures CollisionBetween(h, [leaf1] + ClimbInputs(h, h.digest(leaf1), p1),
                             [leaf2] + ClimbInputs(h, h.digest(leaf2), p2))
  {
    ClimbInjective(h, h.digest(leaf1), p1, h.digest(leaf2), p2);
    hide CollisionBetween, ClimbInputs;
    if h.digest(leaf1) == h.digest(leaf2) {
      CollisionAhead(h, ClimbInputs(h, h.digest(leaf1), p1), ClimbInputs(h, h.digest(leaf2), p2), leaf1, leaf2);
    } else {
      CollisionBehind(h, ClimbInputs(h, h.digest(leaf1), p1), ClimbInputs(h, h.digest(leaf2), p2), leaf1, leaf2);
    }
  }

  /** Directions come from the index bits alone, so proofs of one index over equally many leaves agree on them. */
  lemma {:induction false} DirectionsOfIndex(h: Hash, l1: seq<Bytes>, l2: seq<Bytes>, idx: nat)
    requires idx < |l1| == |l2|
    ensures SameDirections(Proof(h, l1, idx), Proof(h, l2, idx))
    decreases |l1|
  {
    if |l1| > 1 {
      DirectionsOfIndex(h, NextLevel(h, l1), NextLevel(h, l2), idx / 2);
    }
  }

  // ---------------------------------------------------------------- the tree

  class MerkleTree {
    const h: Hash
    var leafData: seq<Bytes>
    var levels: seq<seq<Bytes>>

    ghost predicate Valid()
      reads this
    {
      leafData != [] && levels == Levels(h, LeafHashes(h, leafData))
    }

    constructor (h: Hash, leaves: seq<Bytes>)
      requires leaves != []
      ensures Valid() && this.h == h && leafData == leaves
    {
      this.h := h;
      leafData := leaves;
      levels := [LeafHashes(h, leaves)];
      new;
      Build();
    }

    method Build()
      requires leafData != [] && levels == [LeafHashes(h, leafData)]
      modifies this`levels
      ensures Valid()
    {
      var current := levels[0];
      while |current| > 1
        invariant current != [] && levels != []
        invariant levels[..|levels| - 1] + Levels(h, current) == Levels(h, LeafHashes(h, leafData))
        invariant levels[|levels| - 1] == current
        decreases |current|
      {
        var next: seq<Bytes> := [];
        var i := 0;
        while i < |current|
          invariant i == 2 * |next| && |next| <= (|current| + 1) / 2
          invariant next == NextLevel(h, current)[..|next|]
          decreases |current| - i
        {
          var left := current[i];
          var right := if i + 1 < |current| then current[i + 1] else left;
          assert Parent(h, current, |next|) == h.digest(left + right);
          next := next + [h.digest(left + right)];
          i := i + 2;
        }
        assert next == NextLevel(h, current);
        LevelsStep(h, levels, current);
        levels := levels + [next];
        current := next;
      }
      assert levels == levels[..|levels| - 1] + [current];
    }

    method RootHash() returns (root: Bytes)
      requires Valid()
      ensures root == Root(h, LeafHashes(h, leafData))
    {
      LastLevel(h, LeafHashes(h, leafData));
      root := levels[|levels| - 1][0];
    }

    /** None stands for the index error. */
    method GetProof(leafIndex: int) returns (proof: Option<seq<Step>>)
      requires Valid()
      ensures proof == if 0 <= leafIndex < |leafData| then Some(Proof(h, LeafHashes(h, leafData), leafIndex)) else None
    {
      if !(0 <= leafIndex < |leafData|) {
        return None;
      }
      ghost var hashes := LeafHashes(h, leafData);
      var steps: seq<Step> := [];
      var idx: nat := leafIndex;
      assert steps + Proof(h, hashes, idx) == Proof(h, hashes, leafIndex);
      hide Levels, Proof, NextLevel, LeafHashes, ProofStep;
      for i := 0 to |levels| - 1
        invariant idx < |levels[i]|
        invariant steps + Proof(h, levels[i], idx) == Proof(h, hashes, leafIndex)
      {
        LevelAt(h, hashes, i);
        ProofUnfold(h, levels[i], idx);
        var step := SiblingOf(levels[i], idx);
        AppendAssoc(steps, step, Proof(h, levels[i + 1], idx / 2));
        steps := steps + [step];
        idx := idx / 2;
      }
      LevelAt(h, hashes, |levels| - 1);
      ProofUnfold(h, levels[|levels| - 1], idx);
      assert steps + [] == steps;
      return Some(steps);
    }

    method SiblingOf(level: seq<Bytes>, idx: nat) returns (step: Step)
      requires idx < |level|
      ensures step == ProofStep(level, idx)
    {
      var isRight := idx % 2 == 1;
      var siblingIdx := if isRight then idx - 1 else if idx + 1 < |level| then idx + 1 else idx;
      var direction := if isRight then Left else Right;
      return Step(level[siblingIdx], direction);
    }
  }

  lemma AppendAssoc(steps: seq<Step>, step: Step, rest: seq<Step>)
    ensures steps + ([step] + rest) == (steps + [step]) + rest
  {
  }

  lemma ProofUnfold(h: Hash, level: seq<Bytes>, idx: nat)
    requires idx < |level|
    ensures |level| == 1 ==> Proof(h, level, idx) == []
    ensures |level| > 1 ==> idx / 2 < |NextLevel(h, level)|
    ensures |level| > 1 ==> Proof(h, level, idx) == [ProofStep(level, idx)] + Proof(h, NextLevel(h, level), idx / 2)
  {
  }

  lemma LevelsStep(h: Hash, levels: seq<seq<Bytes>>, current: seq<Bytes>)
    requires levels != [] && levels[|levels| - 1] == current && |current| > 1
    ensures levels[..|levels| - 1] + Levels(h, current) == levels + Levels(h, NextLevel(h, current))
  {
    var before, rest := levels[..|levels| - 1], Levels(h, NextLevel(h, current));
    assert Levels(h, current) == [current] + rest;
    hide Levels, NextLevel;
    assert levels == before + [current];
    assert before + ([current] + rest) == (before + [current]) + rest;
  }

  /** Level `i` is followed by its parents, and only the last level is a single node. */
  predicate LevelFacts(h: Hash, level: seq<Bytes>, i: nat) {
    var levels := Levels(h, level);
    && i < |levels| && levels[i] != []
    && (i + 1 < |levels| ==> |levels[i]| > 1 && levels[i + 1] == NextLevel(h, levels[i]))
    && (i + 1 == |levels| ==> |levels[i]| == 1)
  }

  lemma {:induction false} LevelAt(h: Hash, level: seq<Bytes>, i: nat)
    requires level != [] && i < |Levels(h, level)|
    ensures LevelFacts(h, level, i)
    decreases |level|
  {
    if i > 0 {
      LevelAt(h, NextLevel(h, level), i - 1);
    }
  }

  lemma {:induction false} LastLevel(h: Hash, level: seq<Bytes>)
    requires level != []
    ensures var levels := Levels(h, level);
            levels[|levels| - 1] != [] && levels[|levels| - 1][0] == Root(h, level)
    decreases |level|
  {
    if |level| > 1 {
      LastLevel(h, NextLevel(h, level));
    }
  }

  method VerifyMerkleProof(h: Hash, leaf: Bytes, proof: seq<Step>, expectedRoot: Bytes) returns (ok: bool)
    ensures ok == Verified(h, leaf, proof, expectedRoot)
  {
    var current := h.digest(leaf);
    for i := 0 to |proof|
      invariant Climb(h, current, proof[i..]) == Climb(h, h.digest(leaf), proof)
    {
      if proof[i].direction == Left {
        current := h.digest(proof[i].sibling + current);
      } else {
        current := h.digest(current + proof[i].sibling);
      }
      assert proof[i..][1..] == proof[i + 1..];
    }
    return current == expectedRoot;
  }
}
