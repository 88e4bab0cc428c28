/** The shape of the Merkle trees, from the root down: a reference for the roots that are built level by level. */
module MerkleShape {
  import opened Bytes

  /** The level above: neighbours combined, an odd last node with itself. */
  function Up<T>(combine: (T, T) -> T, level: seq<T>): (up: seq<T>)
    ensures |up| == (|level| + 1) / 2
  {
    seq((|level| + 1) / 2, i requires 0 <= i < (|level| + 1) / 2 =>
      combine(level[2 * i], if 2 * i + 1 < |level| then level[2 * i + 1] else level[2 * i]))
  }

  /** The tree of a given height: halves with a full left one; a tree without right half has its left one twice. */
  function Top<T>(combine: (T, T) -> T, nodes: seq<T>, height: nat): T
    requires 0 < |nodes| <= Pow(2, height)
    decreases height
  {
    if height == 0 then nodes[0]
    else
      PowPositive(2, height - 1);
      var half := Pow(2, height - 1);
      if |nodes| <= half then var t := Top(combine, nodes, height - 1); combine(t, t)
      else combine(Top(combine, nodes[..half], height - 1), Top(combine, nodes[half..], height - 1))
  }

  lemma UpSplit<T>(combine: (T, T) -> T, nodes: seq<T>, n: nat)
    requires 2 * n <= |nodes|
    ensures Up(combine, nodes)[..n] == Up(combine, nodes[..2 * n])
    ensures Up(combine, nodes)[n..] == Up(combine, nodes[2 * n..])
  {
  }

  /** One step down from the root. */
  lemma TopStep<T>(combine: (T, T) -> T, nodes: seq<T>, height: nat, half: nat)
    requires height > 0 && half == Pow(2, height - 1) && 0 < |nodes| <= Pow(2, height)
    ensures 0 < half && Pow(2, height) == half + half
    ensures |nodes| <= half ==>
              Top(combine, nodes, height) == combine(Top(combine, nodes, height - 1), Top(combine, nodes, height - 1))
    ensures half < |nodes| ==>
              Top(combine, nodes, height)
              == combine(Top(combine, nodes[..half], height - 1), Top(combine, nodes[half..], height - 1))
  {
    PowPositive(2, height - 1);
  }

  lemma TopOfTwo<T>(combine: (T, T) -> T, nodes: seq<T>)
    requires 0 < |nodes| <= Pow(2, 1)
    ensures Pow(2, 1) == 2 && Pow(2, 0) == 1
    ensures Top(combine, Up(combine, nodes), 0) == Top(combine, nodes, 1)
  {
    assert Pow(2, 0) == 1;
  }

  /** The level above has the same top. */
  ghost predicate SameTop<T>(combine: (T, T) -> T, nodes: seq<T>, height: nat) {
    && 0 < |nodes| <= Pow(2, height) && height > 0
    && 0 < |Up(combine, nodes)| <= Pow(2, height - 1)
    && Top(combine, Up(combine, nodes), height - 1) == Top(combine, nodes, height)
  }

  lemma SameTopLeft<T>(combine: (T, T) -> T, nodes: seq<T>, height: nat)
    requires height > 1 && |nodes| <= Pow(2, height - 1) && SameTop(combine, nodes, height - 1)
    ensures SameTop(combine, nodes, height)
  {
    TopStep(combine, nodes, height, Pow(2, height - 1));
    TopStep(combine, Up(combine, nodes), height - 1, Pow(2, height - 2));
    hide Top, Up, Pow;
  }

  lemma SameTopBoth<T>(combine: (T, T) -> T, nodes: seq<T>, height: nat, n: nat)
    requires height > 1 && 2 * n < |nodes| <= Pow(2, height) && Pow(2, height - 1) == 2 * n && Pow(2, height - 2) == n
    requires SameTop(combine, nodes[..2 * n], height - 1) && SameTop(combine, nodes[2 * n..], height - 1)
    ensures SameTop(combine, nodes, height)
  {
    var up := Up(combine, nodes);
    UpSplit(combine, nodes, n);
    TopStep(combine, nodes, height, 2 * n);
    hide Top, Up, Pow;
    assert |up| == n + |up[n..]|;
    TopStep(combine, up, height - 1, n);
  }

  /** Combining one level does not change the top. */
  lemma {:induction false} TopOfUp<T>(combine: (T, T) -> T, nodes: seq<T>, height: nat)
    requires 0 < |nodes| <= Pow(2, height) && height > 0
    ensures SameTop(combine, nodes, height)
    decreases height
  {
    if height == 1 {
      TopOfTwo(combine, nodes);
    } else {
      var half, n := Pow(2, height - 1), Pow(2, height - 2);
      assert half == 2 * n && Pow(2, height) == 2 * half;
      hide *;
      if |nodes| <= half {
        TopOfUp(combine, nodes, height - 1);
        SameTopLeft(combine, nodes, height);
      } else {
        TopOfUp(combine, nodes[..half], height - 1);
        TopOfUp(combine, nodes[half..], height - 1);
        SameTopBoth(combine, nodes, height, n);
      }
    }
    hide Top, Up;
  }

  /** The least height that holds `n` nodes. */
  predicate IsHeight(n: nat, height: nat) {
    n <= Pow(2, height) && (height > 0 ==> Pow(2, height - 1) < n)
  }

  lemma HeightOfUp(n: nat, height: nat)
    requires IsHeight(n, height) && n > 1
    ensures height > 0 && IsHeight((n + 1) / 2, height - 1)
  {
  }

  lemma HeightAbove(n: nat, height: nat)
    requires IsHeight((n + 1) / 2, height) && n > 1
    ensures IsHeight(n, height + 1)
  {
    if height > 0 {
      assert Pow(2, height) == 2 * Pow(2, height - 1);
    } else {
      assert Pow(2, 0) == 1;
    }
  }

  /** The low bits of an index, the lowest first. */
  function LowBits(idx: nat, n: nat): seq<bool> {
    if n == 0 then [] else [idx % 2 == 1] + LowBits(idx / 2, n - 1)
  }
}
