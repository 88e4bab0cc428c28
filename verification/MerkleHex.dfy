/** The transport layer's Merkle proofs: hexadecimal nodes, and a separate step for an odd last node. */
module MerkleHex {
  import opened Wrappers
  import opened Bytes
  import MerkleShape
  import opened Digests
  import Recipes

  /** A proof comes from the sender of a shard, so a sibling is any text. */
  datatype Step = SelfStep | Sibling(hash: string, isLeft: bool)

  function Combine(h: Hasher, left: HexDigest, right: HexDigest): HexDigest {
    h(HexBytes(left) + HexBytes(right))
  }

  function NextLevel(h: Hasher, level: seq<HexDigest>): (next: seq<HexDigest>)
    ensures |next| == (|level| + 1) / 2
  {
    seq((|level| + 1) / 2, i requires 0 <= i < (|level| + 1) / 2 =>
      Combine(h, level[2 * i], if 2 * i + 1 < |level| then level[2 * i + 1] else level[2 * i]))
  }

  function Root(h: Hasher, level: seq<HexDigest>): HexDigest
    decreases |level|
  {
    if level == [] then h([]) else if |level| == 1 then level[0] else Root(h, NextLevel(h, level))
  }

  function ProofStep(level: seq<HexDigest>, idx: nat): Step
    requires idx < |level|
  {
    if idx % 2 == 0 then (if idx + 1 < |level| then Sibling(level[idx + 1], false) else SelfStep)
    else Sibling(level[idx - 1], true)
  }

  function Proof(h: Hasher, level: seq<HexDigest>, idx: nat): seq<Step>
    requires idx < |level|
    decreases |level|
  {
    if |level| == 1 then [] else [ProofStep(level, idx)] + Proof(h, NextLevel(h, level), idx / 2)
  }

  function Pairing(h: Hasher): (HexDigest, HexDigest) -> HexDigest {
    (left: HexDigest, right: HexDigest) => h(HexBytes(left) + HexBytes(right))
  }

  /**
   The root seen from above: it is the digest of the roots of two halves, of which the left one is full and the right
   one is taken to be the left one if it has no nodes.
   */
  lemma {:induction false} RootFromAbove(h: Hasher, level: seq<HexDigest>, height: nat)
    requires level != [] && MerkleShape.IsHeight(|level|, height)
    ensures Root(h, level) == MerkleShape.Top(Pairing(h), level, height)
    decreases |level|
  {
    if |level| > 1 {
      assert NextLevel(h, level) == MerkleShape.Up(Pairing(h), level);
      MerkleShape.HeightOfUp(|level|, height);
      MerkleShape.TopOfUp(Pairing(h), level, height);
      hide MerkleShape.Top, MerkleShape.Up;
      RootFromAbove(h, NextLevel(h, level), height - 1);
    } else {
      assert Pow(2, 0) == 1;
    }
  }

  lemma ProofUnfold(h: Hasher, level: seq<HexDigest>, idx: nat)
    requires idx < |level|
    ensures |level| == 1 ==> Proof(h, level, idx) == []
    ensures |level| > 1 ==> Proof(h, level, idx) == [ProofStep(level, idx)] + Proof(h, NextLevel(h, level), idx / 2)
  {
  }

  /** The path is as long as the tree is high. */
  lemma {:induction false} ProofLength(h: Hasher, level: seq<HexDigest>, idx: nat)
    requires idx < |level|
    ensures MerkleShape.IsHeight(|level|, |Proof(h, level, idx)|)
    decreases |level|
  {
    ProofUnfold(h, level, idx);
    if |level| > 1 {
      ProofLength(h, NextLevel(h, level), idx / 2);
      hide *;
      MerkleShape.HeightAbove(|level|, |Proof(h, NextLevel(h, level), idx / 2)|);
    } else {
      assert Pow(2, 0) == 1;
    }
    hide *;
  }

  predicate FromLeft(s: Step) {
    s.Sibling? && s.isLeft
  }

  /** Which of the steps have their sibling on the left. */
  function Sides(proof: seq<Step>): seq<bool> {
    seq(|proof|, i requires 0 <= i < |proof| => FromLeft(proof[i]))
  }

  lemma SidesStep(level: seq<HexDigest>, idx: nat, rest: seq<Step>)
    requires idx < |level|
    ensures Sides([ProofStep(level, idx)] + rest) == [idx % 2 == 1] + Sides(rest)
  {
  }

  /** The sibling stands on the left exactly where the index has a one bit. */
  lemma {:induction false} ProofSides(h: Hasher, level: seq<HexDigest>, idx: nat)
    requires idx < |level|
    ensures Sides(Proof(h, level, idx)) == MerkleShape.LowBits(idx, |Proof(h, level, idx)|)
    decreases |level|
  {
    ProofUnfold(h, level, idx);
    if |level| > 1 {
      ProofSides(h, NextLevel(h, level), idx / 2);
      SidesStep(level, idx, Proof(h, NextLevel(h, level), idx / 2));
    }
    hide Proof, Sides, NextLevel, ProofStep;
  }

  /** `level[i]`: a negative index counts from the end, and one out of range raises. */
  function At(level: seq<HexDigest>, i: int): Option<HexDigest> {
    if 0 <= i < |level| then Some(level[i])
    else if -|level| <= i < 0 then Some(level[|level| + i])
    else None
  }

  /** `level[:n]` */
  function Front(level: seq<HexDigest>, n: int): seq<HexDigest> {
    if n >= |level| then level else if n >= 0 then level[..n] else if |level| + n >= 0 then level[..|level| + n] else []
  }

  /** One step of the walk, for any index; None when it raises. */
  function WalkStep(level: seq<HexDigest>, idx: int): Option<Step> {
    if idx % 2 == 0 && idx + 1 >= |level| then Some(SelfStep)
    else
      match At(level, if idx % 2 == 0 then idx + 1 else idx - 1)
      case None => None
      case Some(hash) => Some(Sibling(hash, idx % 2 != 0))
  }

  /** The steps the walk yields from any index. */
  function Walk(h: Hasher, level: seq<HexDigest>, idx: int): Option<seq<Step>>
    decreases |level|
  {
    if |level| <= 1 then Some([])
    else
      match WalkStep(level, idx)
      case None => None
      case Some(s) =>
        match Walk(h, NextLevel(h, level), idx / 2)
        case None => None
        case Some(rest) => Some([s] + rest)
  }

  /** From an index on the level the walk is the proof. */
  lemma {:induction false} WalkIsProof(h: Hasher, level: seq<HexDigest>, idx: nat)
    requires idx < |level|
    ensures Walk(h, level, idx) == Some(Proof(h, level, idx))
    decreases |level|
  {
    if |level| > 1 {
      WalkIsProof(h, NextLevel(h, level), idx / 2);
    }
  }

  /**
   Off the level, for two leaves: a negative index counts from the end, one beyond the end raises if it is odd, and is
   taken for an odd last node if it is even.
   */
  lemma WalkBeyond(h: Hasher, a: HexDigest, b: HexDigest, i: int)
    ensures i == -1 ==> Walk(h, [a, b], i) == Some([Sibling(a, true)])
    ensures i == -2 ==> Walk(h, [a, b], i) == Some([Sibling(b, false)])
    ensures i < -2 || (i > 2 && i % 2 == 1) ==> Walk(h, [a, b], i) == None
    ensures i >= 2 && i % 2 == 0 ==> Walk(h, [a, b], i) == Some([SelfStep])
  {
    assert |NextLevel(h, [a, b])| == 1;
    assert Walk(h, NextLevel(h, [a, b]), i / 2) == Some([]);
    assert forall s: Step :: [s] + [] == [s];
  }

  function StepUp(hs: Recipes.Hashing, current: HexDigest, s: Step): HexDigest {
    hs.sha3(StepInput(hs, current, s))
  }

  function Climb(hs: Recipes.Hashing, current: HexDigest, proof: seq<Step>): HexDigest
    decreases |proof|
  {
    if proof == [] then current else Climb(hs, StepUp(hs, current, proof[0]), proof[1..])
  }

  /** The leaf index a caller passes along is not part of the check. */
  predicate Verified(hs: Recipes.Hashing, leaf: Bytes, proof: seq<Step>, root: string) {
    Climb(hs, hs.sha3(leaf), proof) == root
  }

  /** What a step hashes. */
  function StepInput(hs: Recipes.Hashing, current: HexDigest, s: Step): Bytes {
    match s
    case SelfStep => HexBytes(current) + HexBytes(current)
    case Sibling(hash, isLeft) =>
      if isLeft then hs.utf8(hash) + HexBytes(current) else HexBytes(current) + hs.utf8(hash)
  }

  /** What a proof step hashes, as text: a left sibling goes in front, and an odd last node is hashed with itself. */
  lemma ShortProofs(hs: Recipes.Hashing, current: HexDigest, sibling: string, rest: seq<Step>)
    ensures Climb(hs, current, []) == current
    ensures Climb(hs, current, [Sibling(sibling, true)] + rest)
         == Climb(hs, hs.sha3(hs.utf8(sibling) + HexBytes(current)), rest)
    ensures Climb(hs, current, [Sibling(sibling, false)] + rest)
         == Climb(hs, hs.sha3(HexBytes(current) + hs.utf8(sibling)), rest)
    ensures Climb(hs, current, [SelfStep] + rest) == Climb(hs, hs.sha3(HexBytes(current) + HexBytes(current)), rest)
  {
    assert forall s: Step :: ([s] + rest)[1..] == rest;
  }

  function LeafHashes(h: Hasher, leaves: seq<Bytes>): (l: seq<HexDigest>)
    ensures |l| == |leaves|
  {
    seq(|leaves|, i requires 0 <= i < |leaves| => h(leaves[i]))
  }

  lemma {:induction false} ClimbReachesRoot(hs: Recipes.Hashing, level: seq<HexDigest>, idx: nat)
    requires idx < |level|
    ensures Climb(hs, level[idx], Proof(hs.sha3, level, idx)) == Root(hs.sha3, level)
    decreases |level|
  {
    if |level| > 1 {
      StepReachesParent(hs, level, idx);
      var next, proof := NextLevel(hs.sha3, level), Proof(hs.sha3, level, idx);
      assert proof[1..] == Proof(hs.sha3, next, idx / 2);
      ClimbReachesRoot(hs, next, idx / 2);
      hide NextLevel, StepUp, ProofStep;
    }
  }

  lemma StepReachesParent(hs: Recipes.Hashing, level: seq<HexDigest>, idx: nat)
    requires idx < |level|
    ensures StepUp(hs, level[idx], ProofStep(level, idx)) == NextLevel(hs.sha3, level)[idx / 2]
  {
    if idx % 2 == 0 {
      assert 2 * (idx / 2) == idx;
    } else {
      assert 2 * (idx / 2) == idx - 1;
    }
  }

  /** For every nonempty shard list and every index, the generated proof verifies against the built root. */
  lemma Complete(hs: Recipes.Hashing, leaves: seq<Bytes>, idx: nat)
    requires idx < |leaves|
    ensures Verified(hs, leaves[idx], Proof(hs.sha3, LeafHashes(hs.sha3, leaves), idx),
                     Root(hs.sha3, LeafHashes(hs.sha3, leaves)))
  {
    ClimbReachesRoot(hs, LeafHashes(hs.sha3, leaves), idx);
  }

  /** Two proofs of the same shape: self steps and sides agree. */
  predicate SameShape(p: seq<Step>, q: seq<Step>) {
    |p| == |q| && forall i :: 0 <= i < |p| ==>
      (p[i].SelfStep? <==> q[i].SelfStep?) && (p[i].Sibling? && q[i].Sibling? ==> p[i].isLeft == q[i].isLeft)
  }

  lemma HexBytesInjective(a: HexDigest, b: HexDigest)
    requires HexBytes(a) == HexBytes(b)
    ensures a == b
  {
    HexBytesRoundTrip(a);
    HexBytesRoundTrip(b);
  }

  /** A digest at a known end of a text is determined by the text, whatever the rest is. */
  lemma EndsEqual(a: HexDigest, rest1: Bytes, b: HexDigest, rest2: Bytes)
    ensures HexBytes(a) + rest1 == HexBytes(b) + rest2 ==> a == b
    ensures rest1 + HexBytes(a) == rest2 + HexBytes(b) ==> a == b
  {
    if HexBytes(a) + rest1 == HexBytes(b) + rest2 {
      assert HexBytes(a) == (HexBytes(a) + rest1)[..64] == HexBytes(b);
      HexBytesInjective(a, b);
    }
    if rest1 + HexBytes(a) == rest2 + HexBytes(b) {
      var whole := rest1 + HexBytes(a);
      assert HexBytes(a) == whole[|whole| - 64..] == HexBytes(b);
      HexBytesInjective(a, b);
    }
  }

  /** The byte strings a path hashes. */
  function ClimbInputs(hs: Recipes.Hashing, current: HexDigest, proof: seq<Step>): seq<Bytes>
    decreases |proof|
  {
    if proof == [] then []
    else [StepInput(hs, current, proof[0])] + ClimbInputs(hs, StepUp(hs, current, proof[0]), proof[1..])
  }

  /** Two different strings with one digest, one out of each list. */
  ghost predicate CollisionBetween(h: Hasher, xs: seq<Bytes>, ys: seq<Bytes>) {
    exists i, j :: 0 <= i < |xs| && 0 <= j < |ys| && Collide(h, xs[i], ys[j])
  }

  lemma CollisionBehind(h: Hasher, xs: seq<Bytes>, ys: seq<Bytes>, x: Bytes, y: Bytes)
    requires CollisionBetween(h, xs, ys)
    ensures CollisionBetween(h, [x] + xs, [y] + ys)
  {
    var i, j :| 0 <= i < |xs| && 0 <= j < |ys| && Collide(h, xs[i], ys[j]);
    assert ([x] + xs)[i + 1] == xs[i] && ([y] + ys)[j + 1] == ys[j];
  }

  lemma CollisionAhead(h: Hasher, xs: seq<Bytes>, ys: seq<Bytes>, x: Bytes, y: Bytes)
    requires Collide(h, x, y)
    ensures CollisionBetween(h, [x] + xs, [y] + ys)
  {
    assert ([x] + xs)[0] == x && ([y] + ys)[0] == y;
  }

  lemma InputInjective(hs: Recipes.Hashing, c1: HexDigest, s1: Step, c2: HexDigest, s2: Step)
    requires SameShape([s1], [s2]) && StepInput(hs, c1, s1) == StepInput(hs, c2, s2)
    ensures c1 == c2
  {
    assert [s1][0] == s1 && [s2][0] == s2;
    hide HexBytes;
    if s1.SelfStep? {
      EndsEqual(c1, HexBytes(c1), c2, HexBytes(c2));
    } else {
      EndsEqual(c1, hs.utf8(s1.hash), c2, hs.utf8(s2.hash));
    }
  }

  lemma {:induction false} ClimbInjective(hs: Recipes.Hashing, c1: HexDigest, p1: seq<Step>, c2: HexDigest,
                                          p2: seq<Step>)
    requires SameShape(p1, p2) && Climb(hs, c1, p1) == Climb(hs, c2, p2)
    ensures c1 == c2 || CollisionBetween(hs.sha3, ClimbInputs(hs, c1, p1), ClimbInputs(hs, c2, p2))
    decreases |p1|
  {
    hide StepInput, CollisionBetween;
    if p1 != [] {
      var d1, d2 := StepUp(hs, c1, p1[0]), StepUp(hs, c2, p2[0]);
      var i1, i2 := StepInput(hs, c1, p1[0]), StepInput(hs, c2, p2[0]);
      ClimbInjective(hs, d1, p1[1..], d2, p2[1..]);
      if d1 != d2 {
        CollisionBehind(hs.sha3, ClimbInputs(hs, d1, p1[1..]), ClimbInputs(hs, d2, p2[1..]), i1, i2);
      } else if i1 != i2 {
        CollisionAhead(hs.sha3, ClimbInputs(hs, d1, p1[1..]), ClimbInputs(hs, d2, p2[1..]), i1, i2);
      } else {
        assert [p1[0]][0] == p1[0] && [p2[0]][0] == p2[0];
        InputInjective(hs, c1, p1[0], c2, p2[0]);
      }
    }
  }

  /**
   Two different shards accepted for one root by proofs of the same shape, whatever text their siblings are,
   hash on the way two different strings to the same digest.
   */
  lemma Binding(hs: Recipes.Hashing, leaf1: Bytes, p1: seq<Step>, leaf2: Bytes, p2: seq<Step>, root: string)
    requires SameShape(p1, p2) && Verified(hs, leaf1, p1, root) && Verified(hs, leaf2, p2, root)
    requires leaf1 != leaf2
    ensures CollisionBetween(hs.sha3, [leaf1] + ClimbInputs(hs, hs.sha3(leaf1), p1),
                             [leaf2] + ClimbInputs(hs, hs.sha3(leaf2), p2))
  {
    var d1, d2 := hs.sha3(leaf1), hs.sha3(leaf2);
    ClimbInjective(hs, d1, p1, d2, p2);
    hide CollisionBetween, ClimbInputs;
    if d1 == d2 {
      CollisionAhead(hs.sha3, ClimbInputs(hs, d1, p1), ClimbInputs(hs, d2, p2), leaf1, leaf2);
    } else {
      CollisionBehind(hs.sha3, ClimbInputs(hs, d1, p1), ClimbInputs(hs, d2, p2), leaf1, leaf2);
    }
  }

  // ---------------------------------------------------------------- methods

  method BuildNextLevel(h: Hasher, level: seq<HexDigest>) returns (next: seq<HexDigest>)
    ensures next == NextLevel(h, level)
  {
    next := [];
    var i := 0;
    while i < |level|
      invariant i == 2 * |next| && |next| <= (|level| + 1) / 2
      invariant next == NextLevel(h, level)[..|next|]
      decreases |level| - i
    {
      var left := level[i];
      var right := if i + 1 < |level| then level[i + 1] else left;
      next := next + [Combine(h, left, right)];
      i := i + 2;
    }
  }

  method BuildMerkleRoot(h: Hasher, leafHashes: seq<HexDigest>) returns (root: HexDigest)
    ensures root == Root(h, leafHashes)
  {
    if leafHashes == [] {
      return h([]);
    }
    var level := leafHashes;
    while |level| > 1
      invariant level != [] && Root(h, level) == Root(h, leafHashes)
      decreases |level|
    {
      level := BuildNextLevel(h, level);
    }
    return level[0];
  }

  /** What a caller is given for a leaf among the first `total`; None when an index is out of range. */
  function Given(h: Hasher, leafHashes: seq<HexDigest>, leafIndex: int, total: int): Option<seq<Step>> {
    if leafIndex >= total then Some([]) else Walk(h, Front(leafHashes, total), leafIndex)
  }

  /** A leaf's proof verifies against the root of the leaves counted; a total beyond them counts all. */
  lemma GivenVerifies(hs: Recipes.Hashing, leaves: seq<Bytes>, idx: nat, total: nat)
    requires idx < |leaves| && idx < total
    ensures var given := Given(hs.sha3, LeafHashes(hs.sha3, leaves), idx, total);
            var counted := leaves[..if total < |leaves| then total else |leaves|];
            given.Some? && Verified(hs, leaves[idx], given.value, Root(hs.sha3, LeafHashes(hs.sha3, counted)))
  {
    var counted := leaves[..if total < |leaves| then total else |leaves|];
    WalkIsProof(hs.sha3, LeafHashes(hs.sha3, counted), idx);
    Complete(hs, counted, idx);
    assert Front(LeafHashes(hs.sha3, leaves), total) == LeafHashes(hs.sha3, counted);
  }

  /** Walks from a leaf to the root; an index beyond the total has an empty proof. */
  method GetProof(h: Hasher, leafHashes: seq<HexDigest>, leafIndex: int, total: int) returns (steps: Option<seq<Step>>)
    ensures steps == Given(h, leafHashes, leafIndex, total)
  {
    if leafIndex >= total {
      return Some([]);
    }
    ghost var start := Front(leafHashes, total);
    var level, idx := Front(leafHashes, total), leafIndex;
    var out: seq<Step> := [];
    AppendNothing(Walk(h, level, idx));
    hide Walk, WalkStep, NextLevel;
    while |level| > 1
      invariant Appended(out, Walk(h, level, idx)) == Walk(h, start, leafIndex)
      decreases |level|
    {
      WalkUnfold(h, level, idx);
      var step := StepOf(level, idx);
      if step.None? {
        return None;
      }
      AppendAssoc(out, step.value, Walk(h, NextLevel(h, level), idx / 2));
      out := out + [step.value];
      level := BuildNextLevel(h, level);
      idx := idx / 2;
    }
    WalkUnfold(h, level, idx);
    assert out + [] == out;
    return Some(out);
  }

  method StepOf(level: seq<HexDigest>, idx: int) returns (step: Option<Step>)
    ensures step == WalkStep(level, idx)
  {
    if idx % 2 == 0 {
      if idx + 1 < |level| {
        var right := At(level, idx + 1);
        return if right.None? then None else Some(Sibling(right.value, false));
      }
      return Some(SelfStep);
    }
    var left := At(level, idx - 1);
    return if left.None? then None else Some(Sibling(left.value, true));
  }

  function Appended(steps: seq<Step>, rest: Option<seq<Step>>): Option<seq<Step>> {
    if rest.None? then None else Some(steps + rest.value)
  }

  lemma AppendNothing(rest: Option<seq<Step>>)
    ensures Appended([], rest) == rest
  {
    assert rest.Some? ==> [] + rest.value == rest.value;
  }

  lemma AppendAssoc(steps: seq<Step>, step: Step, rest: Option<seq<Step>>)
    ensures Appended(steps, Appended([step], rest)) == Appended(steps + [step], rest)
  {
    assert rest.Some? ==> steps + ([step] + rest.value) == (steps + [step]) + rest.value;
  }

  lemma WalkUnfold(h: Hasher, level: seq<HexDigest>, idx: int)
    ensures |level| <= 1 ==> Walk(h, level, idx) == Some([])
    ensures |level| > 1 ==> |NextLevel(h, level)| < |level|
    ensures |level| > 1 && WalkStep(level, idx).None? ==> Walk(h, level, idx) == None
    ensures |level| > 1 && WalkStep(level, idx).Some? ==>
              Walk(h, level, idx) == Appended([WalkStep(level, idx).value], Walk(h, NextLevel(h, level), idx / 2))
  {
  }

  method VerifyProof(hs: Recipes.Hashing, leaf: Bytes, proof: seq<Step>, root: string) returns (ok: bool)
    ensures ok == Verified(hs, leaf, proof, root)
  {
    var current := hs.sha3(leaf);
    for i := 0 to |proof|
      invariant Climb(hs, current, proof[i..]) == Climb(hs, hs.sha3(leaf), proof)
    {
      assert proof[i..][0] == proof[i] && proof[i..][1..] == proof[i + 1..];
      match proof[i]
      case SelfStep =>
        current := hs.sha3(HexBytes(current) + HexBytes(current));
      case Sibling(hash, isLeft) =>
        if isLeft {
          current := hs.sha3(hs.utf8(hash) + HexBytes(current));
        } else {
          current := hs.sha3(HexBytes(current) + hs.utf8(hash));
        }
    }
    return current == root;
  }
}
