/** What decoding returns, on consistent droplets and on arbitrary ones. */
module FountainDecoding {
  import opened Wrappers
  import opened Bytes
  import opened Gf2
  import opened Fountain

  /** The source vector `x` accounts for the droplet's payload. */
  ghost predicate Explains(d: Droplet, x: seq<nat>) {
    Dot(RowOf(d.indices, |x|), x) == FromBytes(d.payload)
  }

  ghost predicate ExplainsAll(droplets: seq<Droplet>, x: seq<nat>) {
    forall d :: d in droplets ==> Explains(d, x)
  }

  /** The equations of the droplets determine `k` unknowns. */
  ghost predicate FullRank(droplets: seq<Droplet>, k: nat) {
    Determined(SystemOf(droplets, k), k)
  }

  predicate PayloadSized(droplets: seq<Droplet>, size: nat) {
    forall d :: d in droplets ==> |d.payload| == size
  }

  predicate IsRankError<T>(r: Result<T, DecodeError>) {
    r == Failure(TooFewDroplets) || r == Failure(RankDeficient)
  }

  lemma ExplainsSolves(droplets: seq<Droplet>, x: seq<nat>)
    ensures ExplainsAll(droplets, x) <==> Solves(SystemOf(droplets, |x|), x)
  {
    var s := SystemOf(droplets, |x|);
    if Solves(s, x) {
      forall d | d in droplets ensures Explains(d, x) {
        var r :| 0 <= r < |droplets| && droplets[r] == d;
        assert s[r] == EquationOf(d, |x|);
      }
    }
    assert forall r :: 0 <= r < |droplets| ==> droplets[r] in droplets;
  }

  // ---------------------------------------------------------------- the systematic fast path

  /** Every entry of the systematic map comes from a droplet that carries just that symbol. */
  lemma {:induction false} SystematicMapSource(droplets: seq<Droplet>, k: nat, c: nat) returns (r: nat)
    requires c in SystematicMap(droplets, k)
    ensures r < |droplets| && IsSystematic(droplets[r], k)
    ensures droplets[r].indices == [c] && droplets[r].payload == SystematicMap(droplets, k)[c]
  {
    var n := |droplets| - 1;
    if IsSystematic(droplets[n], k) && droplets[n].indices[0] == c && c !in SystematicMap(droplets[..n], k) {
      r := n;
    } else {
      r := SystematicMapSource(droplets[..n], k, c);
    }
  }

  /** Of several systematic copies of a symbol the first is taken, whether or not they agree. */
  lemma {:induction false} SystematicMapFirst(droplets: seq<Droplet>, k: nat, r: nat)
    requires r < |droplets| && IsSystematic(droplets[r], k)
    requires forall q :: 0 <= q < r && IsSystematic(droplets[q], k) ==> droplets[q].indices != droplets[r].indices
    ensures droplets[r].indices[0] in SystematicMap(droplets, k)
    ensures SystematicMap(droplets, k)[droplets[r].indices[0]] == droplets[r].payload
  {
    var n := |droplets| - 1;
    if r < n {
      SystematicMapFirst(droplets[..n], k, r);
    } else if droplets[n].indices[0] in SystematicMap(droplets[..n], k) {
      var q := SystematicMapSource(droplets[..n], k, droplets[n].indices[0]);
    }
  }

  lemma UnitRow(c: nat, x: seq<nat>)
    requires c < |x|
    ensures Dot(RowOf([c], |x|), x) == x[c]
  {
    DotSingle(RowOf([c], |x|), x, c);
  }

  /** All systematic symbols together determine the source. */
  lemma SystematicFullRank(droplets: seq<Droplet>, k: nat)
    requires forall c: nat :: c < k ==> c in SystematicMap(droplets, k)
    ensures FullRank(droplets, k)
  {
    var s := SystemOf(droplets, k);
    forall v ensures !IsKernelVector(s, k, v) {
      if IsKernelVector(s, k, v) {
        var i :| 0 <= i < k && v[i] == 1;
        var r := SystematicMapSource(droplets, k, i);
        assert s[r].coef == RowOf([i], k);
        UnitRow(i, v);
      }
    }
  }

  /** Droplets of the source symbols in order determine them, whatever follows. */
  lemma UnitsFullRank(droplets: seq<Droplet>, k: nat)
    requires k <= |droplets| && forall i :: 0 <= i < k ==> droplets[i].indices == [i]
    ensures FullRank(droplets, k)
  {
    var s := SystemOf(droplets, k);
    forall v ensures !IsKernelVector(s, k, v) {
      if IsKernelVector(s, k, v) {
        var i :| 0 <= i < k && v[i] == 1;
        assert s[i].coef == RowOf([i], k);
        UnitRow(i, v);
      }
    }
  }

  lemma {:induction false} SystematicJoin(droplets: seq<Droplet>, k: nat, x: seq<nat>, n: nat, size: nat)
    requires n <= k == |x| && ExplainsAll(droplets, x) && PayloadSized(droplets, size)
    requires forall c: nat :: c < k ==> c in SystematicMap(droplets, k)
    ensures JoinSystematic(SystematicMap(droplets, k), n) == Join(x[..n], size)
  {
    if n > 0 {
      SystematicJoin(droplets, k, x, n - 1, size);
      var r := SystematicMapSource(droplets, k, n - 1);
      assert droplets[r] in droplets;
      UnitRow(n - 1, x);
      ToFromBytes(droplets[r].payload);
      assert x[..n][..n - 1] == x[..n - 1];
    }
  }

  // ---------------------------------------------------------------- decoding is exact

  /** The filter keeps exactly the usable droplets. */
  lemma {:induction false} UsableMembers(codec: Codec, droplets: seq<Droplet>, k: nat, root: Option<string>,
                                         validate: bool)
    ensures forall d :: d in UsableDroplets(codec, droplets, k, root, validate)
                   <==> d in droplets && Usable(codec, d, k, root, validate)
    ensures PayloadSized(UsableDroplets(codec, droplets, k, root, validate), codec.symbolSize)
  {
    if droplets != [] {
      var n := |droplets| - 1;
      UsableMembers(codec, droplets[..n], k, root, validate);
      assert droplets == droplets[..n] + [droplets[n]];
    }
  }

  lemma {:induction false} UsableCount(codec: Codec, droplets: seq<Droplet>, k: nat, root: Option<string>,
                                       validate: bool)
    ensures |UsableDroplets(codec, droplets, k, root, validate)| <= |droplets|
  {
    if droplets != [] {
      UsableCount(codec, droplets[..|droplets| - 1], k, root, validate);
    }
  }

  /** For arbitrary droplets, a rank error is raised exactly when their equations do not determine `k` unknowns. */
  lemma RankErrorIff(codec: Codec, usable: seq<Droplet>, k: nat)
    ensures IsRankError(Recovered(codec, usable, k)) <==> !FullRank(usable, k)
    ensures Recovered(codec, usable, k).Failure? ==> IsRankError(Recovered(codec, usable, k))
  {
    var s := SystemOf(usable, k);
    if |usable| < k {
      TooFewEquations(s, k);
    } else {
      RankTheorem(s, k);
      SystematicKeys(usable, k);
      if |SystematicMap(usable, k)| == k {
        FullMap(SystematicMap(usable, k), k);
        SystematicFullRank(usable, k);
      }
    }
  }

  /** Whatever the droplets say, every solved word fits a symbol, so writing it out cannot overflow. */
  lemma SolvedFits(usable: seq<Droplet>, k: nat, size: nat)
    requires PayloadSized(usable, size) && k <= |usable|
    ensures |Eliminated(SystemOf(usable, k), k).0| == |usable|
    ensures Below256(Solution(Eliminated(SystemOf(usable, k), k).0, k), size)
  {
    var s := SystemOf(usable, k);
    forall r | 0 <= r < |s| ensures s[r].rhs < Pow(256, size) {
      assert usable[r] in usable;
      ToFromBytes(usable[r].payload);
    }
    ReduceBound(s, k, 0, [], size);
  }

  /** On droplets consistent with a source, both decoding paths return that source. */
  lemma RecoveredExact(codec: Codec, usable: seq<Droplet>, k: nat, x: seq<nat>)
    requires |x| == k && ExplainsAll(usable, x) && PayloadSized(usable, codec.symbolSize)
    requires FullRank(usable, k)
    ensures Recovered(codec, usable, k) == Success(Join(x, codec.symbolSize))
  {
    RankErrorIff(codec, usable, k);
    ExplainsSolves(usable, x);
    var s, m := SystemOf(usable, k), SystematicMap(usable, k);
    SystematicKeys(usable, k);
    if |m| == k {
      FullMap(m, k);
      SystematicJoin(usable, k, x, k, codec.symbolSize);
      assert x[..k] == x;
    } else {
      ReduceSolves(s, k, 0, [], x);
      RankTheorem(s, k);
      forall i | 0 <= i < k ensures Solution(Eliminated(s, k).0, k)[i] == x[i] {
        FullRankSolution(s, k, x, i);
      }
      assert Solution(Eliminated(s, k).0, k) == x;
    }
  }

  /**
   Decoding is exact: if some source explains every usable droplet, the decoder raises a rank error
   exactly when another source explains them too, and otherwise returns the checked payload of that
   source, by the fast path and by elimination alike.
   */
  lemma DecodeExact(codec: Codec, droplets: seq<Droplet>, k: nat, origLen: nat, root: Option<string>, validate: bool,
                    x: seq<nat>)
    requires |x| == k
    requires ExplainsAll(UsableDroplets(codec, droplets, k, root, validate), x)
    ensures var usable := UsableDroplets(codec, droplets, k, root, validate);
            var r := Decoded(codec, droplets, k, origLen, root, validate);
            && (IsRankError(r) <==> exists y: seq<nat> :: |y| == k && y != x && ExplainsAll(usable, y))
            && (IsRankError(r) <==> !FullRank(usable, k))
            && (!IsRankError(r) ==> r == Checked(codec, Take(Join(x, codec.symbolSize), origLen), root))
  {
    var usable := UsableDroplets(codec, droplets, k, root, validate);
    UsableMembers(codec, droplets, k, root, validate);
    RankErrorIff(codec, usable, k);
    AnotherSource(usable, k, x);
    if FullRank(usable, k) {
      RecoveredExact(codec, usable, k, x);
    }
    hide UsableDroplets, Recovered, FullRank, ExplainsAll, Join, Take, PayloadSized;
  }

  /** Droplets that a source explains are explained by another one exactly if their rank is deficient. */
  lemma AnotherSource(usable: seq<Droplet>, k: nat, x: seq<nat>)
    requires |x| == k && ExplainsAll(usable, x)
    ensures (exists y: seq<nat> :: |y| == k && y != x && ExplainsAll(usable, y)) <==> !FullRank(usable, k)
  {
    ExplainsSolves(usable, x);
    AmbiguousIffKernel(SystemOf(usable, k), k, x);
    hide ExplainsAll, Solves, SystemOf;
    if y: seq<nat> :| |y| == k && y != x && Solves(SystemOf(usable, k), y) {
      ExplainsSolves(usable, y);
    }
    if y: seq<nat> :| |y| == k && y != x && ExplainsAll(usable, y) {
      ExplainsSolves(usable, y);
    }
  }

  /** Order and repetition do not matter: only the set of usable droplets does. */
  lemma DecodeOrderInsensitive(codec: Codec, ds: seq<Droplet>, es: seq<Droplet>, k: nat, origLen: nat,
                               root: Option<string>, validate: bool, x: seq<nat>)
    requires |x| == k && ExplainsAll(UsableDroplets(codec, ds, k, root, validate), x)
    requires forall d ::
               d in ds && Usable(codec, d, k, root, validate) <==> d in es && Usable(codec, d, k, root, validate)
    ensures var r, s := Decoded(codec, ds, k, origLen, root, validate), Decoded(codec, es, k, origLen, root, validate);
            r == s || (IsRankError(r) && IsRankError(s))
  {
    UsableMembers(codec, ds, k, root, validate);
    UsableMembers(codec, es, k, root, validate);
    var us, vs := UsableDroplets(codec, ds, k, root, validate), UsableDroplets(codec, es, k, root, validate);
    assert forall d :: d in us <==> d in vs;
    FullRankMembers(us, vs, k);
    FullRankMembers(vs, us, k);
    DecodeExact(codec, ds, k, origLen, root, validate, x);
    DecodeExact(codec, es, k, origLen, root, validate, x);
  }

  /** More droplets never lower the rank. */
  lemma FullRankMembers(ds: seq<Droplet>, es: seq<Droplet>, k: nat)
    requires forall d :: d in ds ==> d in es
    ensures FullRank(ds, k) ==> FullRank(es, k)
  {
    var s, t := SystemOf(ds, k), SystemOf(es, k);
    forall v | IsKernelVector(t, k, v) ensures IsKernelVector(s, k, v) {
      forall r | 0 <= r < |s| ensures Dot(s[r].coef, v) == 0 {
        assert ds[r] in es;
        var q :| 0 <= q < |es| && es[q] == ds[r];
        assert t[q] == s[r];
      }
    }
  }

  lemma {:induction false} UnvalidatedUsable(codec: Codec, droplets: seq<Droplet>, k: nat, root: Option<string>)
    ensures UsableDroplets(codec, droplets, k, root, false) == UsableDroplets(codec, droplets, k, None, true)
  {
    if droplets != [] {
      UnvalidatedUsable(codec, droplets[..|droplets| - 1], k, root);
    }
  }

  /** Without the filter a root only decides whether what was decoded is returned. */
  lemma UnvalidatedDecode(codec: Codec, droplets: seq<Droplet>, k: nat, origLen: nat, root: string)
    ensures Decoded(codec, droplets, k, origLen, Some(root), false) ==
              match Decoded(codec, droplets, k, origLen, None, true)
              case Failure(e) => Failure(e)
              case Success(data) =>
                if Lower(codec.sha3(data)) == Lower(StripHexPrefix(root)) then Success(data)
                else Failure(IntegrityFailure)
  {
    UnvalidatedUsable(codec, droplets, k, Some(root));
    hide UsableDroplets, Recovered, Take, Lower, StripHexPrefix;
  }

  /** Whatever was received, a configured root is never contradicted by the returned payload. */
  lemma DecodeIntegrity(codec: Codec, droplets: seq<Droplet>, k: nat, origLen: nat, root: Option<string>,
                        validate: bool)
    ensures var r := Decoded(codec, droplets, k, origLen, root, validate);
            && (r.Success? ==> IntegrityHolds(codec, r.value, root))
            && (r == Failure(IntegrityFailure) ==> root.Some?)
  {
    RankErrorIff(codec, UsableDroplets(codec, droplets, k, root, validate), k);
  }

  /** A returned payload has the declared length, or all the bytes of the `k` symbols if there are fewer. */
  lemma DecodeLength(codec: Codec, droplets: seq<Droplet>, k: nat, origLen: nat, root: Option<string>, validate: bool)
    requires Decoded(codec, droplets, k, origLen, root, validate).Success?
    ensures |Decoded(codec, droplets, k, origLen, root, validate).value| == Min(origLen, k * codec.symbolSize)
  {
    UsableMembers(codec, droplets, k, root, validate);
    RecoveredLength(codec, UsableDroplets(codec, droplets, k, root, validate), k);
  }

  lemma {:induction false} JoinLength(x: seq<nat>, size: nat)
    ensures |Join(x, size)| == |x| * size
  {
    if x != [] {
      JoinLength(x[..|x| - 1], size);
      assert |x| * size == (|x| - 1) * size + size;
    }
  }

  lemma {:induction false} JoinSystematicLength(droplets: seq<Droplet>, k: nat, n: nat, size: nat)
    requires PayloadSized(droplets, size) && n <= k
    requires forall c: nat :: c < k ==> c in SystematicMap(droplets, k)
    ensures |JoinSystematic(SystematicMap(droplets, k), n)| == n * size
  {
    if n > 0 {
      JoinSystematicLength(droplets, k, n - 1, size);
      var r := SystematicMapSource(droplets, k, n - 1);
      assert droplets[r] in droplets;
      assert n * size == (n - 1) * size + size;
    }
  }

  lemma RecoveredLength(codec: Codec, usable: seq<Droplet>, k: nat)
    requires PayloadSized(usable, codec.symbolSize)
    requires Recovered(codec, usable, k).Success?
    ensures |Recovered(codec, usable, k).value| == k * codec.symbolSize
  {
    var m := SystematicMap(usable, k);
    SystematicKeys(usable, k);
    if |m| == k {
      FullMap(m, k);
      JoinSystematicLength(usable, k, k, codec.symbolSize);
    } else {
      JoinLength(Solution(Eliminated(SystemOf(usable, k), k).0, k), codec.symbolSize);
    }
  }
}
