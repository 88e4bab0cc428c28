/** Linear systems over GF(2) whose right-hand sides are symbols, and Gauss-Jordan elimination on them. */
module Gf2 {
  import opened Wrappers
  import opened BitXor
  import Bytes

  datatype Equation = Equation(coef: seq<bool>, rhs: nat)

  /** The exclusive-or of the entries of `x` selected by `coef`. */
  function Dot(coef: seq<bool>, x: seq<nat>): nat
    requires |coef| == |x|
  {
    if coef == [] then 0
    else Xor(if coef[0] then x[0] else 0, Dot(coef[1..], x[1..]))
  }

  function AddRows(p: seq<bool>, q: seq<bool>): (s: seq<bool>)
    requires |p| == |q|
    ensures |s| == |p|
  {
    seq(|p|, i requires 0 <= i < |p| => p[i] != q[i])
  }

  function AddVectors(x: seq<nat>, y: seq<nat>): (s: seq<nat>)
    requires |x| == |y|
    ensures |s| == |x|
  {
    seq(|x|, i requires 0 <= i < |x| => Xor(x[i], y[i]))
  }

  function AddEquations(e: Equation, f: Equation): Equation
    requires |e.coef| == |f.coef|
  {
    Equation(AddRows(e.coef, f.coef), Xor(e.rhs, f.rhs))
  }

  lemma {:induction false} DotAddRows(p: seq<bool>, q: seq<bool>, x: seq<nat>)
    requires |p| == |q| == |x|
    ensures Dot(AddRows(p, q), x) == Xor(Dot(p, x), Dot(q, x))
  {
    if p == [] {
      XorZero(0);
    } else {
      DotAddRows(p[1..], q[1..], x[1..]);
      assert AddRows(p, q)[1..] == AddRows(p[1..], q[1..]);
      var a, b := if p[0] then x[0] else 0, if q[0] then x[0] else 0;
      XorSwap(a, Dot(p[1..], x[1..]), b, Dot(q[1..], x[1..]));
      XorSelf(x[0]);
      XorZero(x[0]);
      XorZero(0);
      hide Xor;
      assert (if AddRows(p, q)[0] then x[0] else 0) == Xor(a, b);
    }
  }

  lemma {:induction false} DotAddVectors(p: seq<bool>, x: seq<nat>, y: seq<nat>)
    requires |p| == |x| == |y|
    ensures Dot(p, AddVectors(x, y)) == Xor(Dot(p, x), Dot(p, y))
  {
    if p == [] {
      XorZero(0);
    } else {
      DotAddVectors(p[1..], x[1..], y[1..]);
      assert AddVectors(x, y)[1..] == AddVectors(x[1..], y[1..]);
      var a, b := if p[0] then x[0] else 0, if p[0] then y[0] else 0;
      XorSwap(a, Dot(p[1..], x[1..]), b, Dot(p[1..], y[1..]));
      XorZero(0);
      hide Xor;
      assert (if p[0] then AddVectors(x, y)[0] else 0) == Xor(a, b);
    }
  }

  /** A row whose products with `x` vanish everywhere gives zero. */
  lemma {:induction false} DotVanishes(p: seq<bool>, x: seq<nat>)
    requires |p| == |x|
    requires forall i :: 0 <= i < |p| && p[i] ==> x[i] == 0
    ensures Dot(p, x) == 0
  {
    if p != [] {
      DotVanishes(p[1..], x[1..]);
      XorZero(0);
    }
  }

  /** At most one position contributes. */
  lemma {:induction false} DotSingle(p: seq<bool>, x: seq<nat>, a: nat)
    requires |p| == |x| && a < |p|
    requires forall i :: 0 <= i < |p| && i != a && p[i] ==> x[i] == 0
    ensures Dot(p, x) == if p[a] then x[a] else 0
  {
    var head := if p[0] then x[0] else 0;
    if a == 0 {
      DotVanishes(p[1..], x[1..]);
      XorZero(head);
    } else {
      DotSingle(p[1..], x[1..], a - 1);
      XorZero(Dot(p[1..], x[1..]));
    }
  }

  /** At most two positions contribute. */
  lemma {:induction false} DotPair(p: seq<bool>, x: seq<nat>, a: nat, b: nat)
    requires |p| == |x| && a < b < |p|
    requires forall i :: 0 <= i < |p| && i != a && i != b && p[i] ==> x[i] == 0
    ensures Dot(p, x) == Xor(if p[a] then x[a] else 0, if p[b] then x[b] else 0)
  {
    if a == 0 {
      DotSingle(p[1..], x[1..], b - 1);
    } else {
      DotPair(p[1..], x[1..], a - 1, b - 1);
      XorZero(Dot(p[1..], x[1..]));
    }
  }

  predicate Width(system: seq<Equation>, k: nat) {
    forall r :: 0 <= r < |system| ==> |system[r].coef| == k
  }

  /** `x` satisfies every equation. */
  ghost predicate Solves(system: seq<Equation>, x: seq<nat>)
    requires Width(system, |x|)
  {
    forall r :: 0 <= r < |system| ==> Dot(system[r].coef, x) == system[r].rhs
  }

  /** The same rows with zero right-hand sides. */
  function Homogeneous(system: seq<Equation>): (h: seq<Equation>)
    ensures |h| == |system|
    ensures forall r :: 0 <= r < |h| ==> h[r] == Equation(system[r].coef, 0)
  {
    seq(|system|, r requires 0 <= r < |system| => Equation(system[r].coef, 0))
  }

  predicate IsKernelVector(system: seq<Equation>, k: nat, v: seq<nat>)
    requires Width(system, k)
  {
    && |v| == k
    && (forall i :: 0 <= i < k ==> v[i] <= 1)
    && (exists i :: 0 <= i < k && v[i] == 1)
    && (forall r :: 0 <= r < |system| ==> Dot(system[r].coef, v) == 0)
  }

  /** Full column rank: no nonzero combination of columns vanishes. */
  ghost predicate Determined(system: seq<Equation>, k: nat)
    requires Width(system, k)
  {
    !exists v :: IsKernelVector(system, k, v)
  }

  // ---------------------------------------------------------------- elimination

  /** The first row at or below `from` with a one in column `col`. */
  function FindPivot(system: seq<Equation>, k: nat, col: nat, from: nat): (p: Option<nat>)
    requires Width(system, k) && col < k && from <= |system|
    ensures p.Some? ==> from <= p.value < |system| && system[p.value].coef[col]
    ensures p.Some? ==> forall r :: from <= r < p.value ==> !system[r].coef[col]
    ensures p.None? ==> forall r :: from <= r < |system| ==> !system[r].coef[col]
    decreases |system| - from
  {
    if from == |system| then None
    else if system[from].coef[col] then Some(from)
    else FindPivot(system, k, col, from + 1)
  }

  function SwapRows(system: seq<Equation>, i: nat, j: nat): (s: seq<Equation>)
    requires i < |system| && j < |system|
    ensures |s| == |system|
  {
    system[i := system[j]][j := system[i]]
  }

  /** Add row `pivot` to every other row that has a one in column `col`. */
  function ClearColumn(system: seq<Equation>, k: nat, pivot: nat, col: nat): (s: seq<Equation>)
    requires Width(system, k) && pivot < |system| && col < k
    ensures |s| == |system| && Width(s, k)
  {
    seq(|system|, r requires 0 <= r < |system| =>
      if r != pivot && system[r].coef[col] then AddEquations(system[r], system[pivot]) else system[r])
  }

  /**
   Elimination of the columns from `col` on; `cols[r]` is the pivot column of row `r`, so the
   number of pivots so far is the index of the next pivot row.
   */
  function Reduce(system: seq<Equation>, k: nat, col: nat, cols: seq<nat>): (r: (seq<Equation>, seq<nat>))
    requires Width(system, k) && col <= k && |cols| <= |system|
    ensures |r.0| == |system| && Width(r.0, k) && |r.1| <= |system|
    decreases k - col
  {
    if col == k then (system, cols)
    else
      match FindPivot(system, k, col, |cols|)
      case None => Reduce(system, k, col + 1, cols)
      case Some(p) =>
        Reduce(ClearColumn(SwapRows(system, |cols|, p), k, |cols|, col), k, col + 1, cols + [col])
  }

  function Eliminated(system: seq<Equation>, k: nat): (r: (seq<Equation>, seq<nat>))
    requires Width(system, k)
    ensures |r.0| == |system| && Width(r.0, k) && |r.1| <= |system|
  {
    Reduce(system, k, 0, [])
  }

  // ---------------------------------------------------------------- solutions are preserved

  lemma ClearColumnSolves(system: seq<Equation>, k: nat, pivot: nat, col: nat, x: seq<nat>)
    requires |x| == k && Width(system, k) && pivot < |system| && col < k
    ensures Solves(system, x) <==> Solves(ClearColumn(system, k, pivot, col), x)
  {
    hide Xor;
    var cleared := ClearColumn(system, k, pivot, col);
    assert cleared[pivot] == system[pivot];
    if Dot(system[pivot].coef, x) == system[pivot].rhs {
      forall r | 0 <= r < |system|
        ensures Dot(system[r].coef, x) == system[r].rhs <==> Dot(cleared[r].coef, x) == cleared[r].rhs
      {
        DotAddRows(system[r].coef, system[pivot].coef, x);
        XorCancel(Dot(system[r].coef, x), system[pivot].rhs);
        XorCancel(system[r].rhs, system[pivot].rhs);
      }
    }
  }

  /** Elimination neither loses nor invents solutions. */
  lemma {:induction false} ReduceSolves(system: seq<Equation>, k: nat, col: nat, cols: seq<nat>, x: seq<nat>)
    requires |x| == k && Width(system, k) && col <= k && |cols| <= |system|
    ensures Solves(system, x) <==> Solves(Reduce(system, k, col, cols).0, x)
    decreases k - col
  {
    if col < k {
      var p := FindPivot(system, k, col, |cols|);
      if p.None? {
        ReduceSolves(system, k, col + 1, cols, x);
      } else {
        var swapped := SwapRows(system, |cols|, p.value);
        SwapRowsSolves(system, k, |cols|, p.value, x);
        ClearColumnSolves(swapped, k, |cols|, col, x);
        ReduceSolves(ClearColumn(swapped, k, |cols|, col), k, col + 1, cols + [col], x);
      }
    }
  }

  lemma SwapRowsSolves(system: seq<Equation>, k: nat, i: nat, j: nat, x: seq<nat>)
    requires |x| == k && Width(system, k) && i < |system| && j < |system|
    ensures Width(SwapRows(system, i, j), k)
    ensures Solves(system, x) <==> Solves(SwapRows(system, i, j), x)
  {
    var swapped := SwapRows(system, i, j);
    assert swapped[i] == system[j] && swapped[j] == system[i];
    if Solves(swapped, x) {
      forall r | 0 <= r < |system| ensures Dot(system[r].coef, x) == system[r].rhs {
        var s := if r == i then j else if r == j then i else r;
        assert swapped[s] == system[r];
      }
    }
  }

  /** The row operations do not look at the right-hand sides. */
  lemma {:induction false} ReduceHomogeneous(system: seq<Equation>, k: nat, col: nat, cols: seq<nat>)
    requires Width(system, k) && col <= k && |cols| <= |system|
    ensures Reduce(Homogeneous(system), k, col, cols)
         == (Homogeneous(Reduce(system, k, col, cols).0), Reduce(system, k, col, cols).1)
    decreases k - col
  {
    if col < k {
      var p := FindPivot(system, k, col, |cols|);
      FindPivotHomogeneous(system, k, col, |cols|);
      if p.None? {
        ReduceHomogeneous(system, k, col + 1, cols);
      } else {
        var swapped := SwapRows(system, |cols|, p.value);
        assert SwapRows(Homogeneous(system), |cols|, p.value) == Homogeneous(swapped);
        XorZero(0);
        assert ClearColumn(Homogeneous(swapped), k, |cols|, col) == Homogeneous(ClearColumn(swapped, k, |cols|, col));
        ReduceHomogeneous(ClearColumn(swapped, k, |cols|, col), k, col + 1, cols + [col]);
      }
    }
  }

  lemma {:induction false} FindPivotHomogeneous(system: seq<Equation>, k: nat, col: nat, from: nat)
    requires Width(system, k) && col < k && from <= |system|
    ensures FindPivot(Homogeneous(system), k, col, from) == FindPivot(system, k, col, from)
    decreases |system| - from
  {
    if from < |system| {
      FindPivotHomogeneous(system, k, col, from + 1);
    }
  }

  // ---------------------------------------------------------------- reduced echelon form

  predicate Ascending(cols: seq<nat>, bound: nat) {
    && (forall i, j :: 0 <= i < j < |cols| ==> cols[i] < cols[j])
    && (forall i :: 0 <= i < |cols| ==> cols[i] < bound)
  }

  /** Reduced echelon form in the columns below `col`. */
  predicate Echelon(system: seq<Equation>, k: nat, col: nat, cols: seq<nat>) {
    && Width(system, k) && col <= k
    && |cols| <= |system|
    && Ascending(cols, col)
    && (forall i, r :: 0 <= i < |cols| && 0 <= r < |system| ==> system[r].coef[cols[i]] == (r == i))
    && (forall r, c :: |cols| <= r < |system| && 0 <= c < col ==> !system[r].coef[c])
  }

  lemma EchelonStep(system: seq<Equation>, k: nat, col: nat, cols: seq<nat>, p: nat)
    requires Echelon(system, k, col, cols) && col < k
    requires |cols| <= p < |system| && system[p].coef[col]
    ensures Echelon(ClearColumn(SwapRows(system, |cols|, p), k, |cols|, col), k, col + 1, cols + [col])
  {
    var n := |cols|;
    var s := SwapRows(system, n, p);
    var t := ClearColumn(s, k, n, col);
    assert Echelon(s, k, col, cols) && s[n].coef[col];
    forall r, c | 0 <= r < |t| && 0 <= c < col ensures t[r].coef[c] == s[r].coef[c] {
      assert !s[n].coef[c];
    }
    forall r | 0 <= r < |t| ensures t[r].coef[col] == (r == n) {
    }
  }

  lemma {:induction false} ReduceEchelon(system: seq<Equation>, k: nat, col: nat, cols: seq<nat>)
    requires Echelon(system, k, col, cols)
    ensures var r := Reduce(system, k, col, cols); Echelon(r.0, k, k, r.1)
    decreases k - col
  {
    if col < k {
      var p := FindPivot(system, k, col, |cols|);
      if p.None? {
        ReduceEchelon(system, k, col + 1, cols);
      } else {
        EchelonStep(system, k, col, cols, p.value);
        ReduceEchelon(ClearColumn(SwapRows(system, |cols|, p.value), k, |cols|, col), k, col + 1, cols + [col]);
      }
    }
  }

  lemma {:induction false} ReduceBound(system: seq<Equation>, k: nat, col: nat, cols: seq<nat>, n: nat)
    requires Width(system, k) && col <= k && |cols| <= |system|
    requires RhsBelow(system, n)
    ensures RhsBelow(Reduce(system, k, col, cols).0, n)
    decreases k - col
  {
    if col < k {
      var p := FindPivot(system, k, col, |cols|);
      if p.None? {
        ReduceBound(system, k, col + 1, cols, n);
      } else {
        var s := SwapRows(system, |cols|, p.value);
        var t := ClearColumn(s, k, |cols|, col);
        forall r | 0 <= r < |t| ensures t[r].rhs < Bytes.Pow(256, n) {
          XorBound(s[r].rhs, s[|cols|].rhs, n);
        }
        ReduceBound(t, k, col + 1, cols + [col], n);
      }
    }
  }

  predicate RhsBelow(system: seq<Equation>, n: nat) {
    forall r :: 0 <= r < |system| ==> system[r].rhs < Bytes.Pow(256, n)
  }

  // ---------------------------------------------------------------- rank and uniqueness

  /** `k` ascending columns below `k` are all the columns. */
  lemma {:induction false} AllColumns(cols: seq<nat>, k: nat, i: nat)
    requires Ascending(cols, k) && |cols| == k && i < k
    ensures cols[i] == i
  {
    AscendingFloor(cols, k, i);
    AscendingCeiling(cols, k, i);
  }

  lemma {:induction false} AscendingFloor(cols: seq<nat>, k: nat, i: nat)
    requires Ascending(cols, k) && i < |cols|
    ensures i <= cols[i]
  {
    if i > 0 {
      AscendingFloor(cols, k, i - 1);
    }
  }

  lemma {:induction false} AscendingCeiling(cols: seq<nat>, k: nat, i: nat)
    requires Ascending(cols, k) && i < |cols|
    ensures cols[i] + |cols| <= k + i
    decreases |cols| - i
  {
    if i + 1 < |cols| {
      AscendingCeiling(cols, k, i + 1);
    }
  }

  /** Fewer than `k` pivots leave a free column. */
  lemma {:induction false} FreeColumn(cols: seq<nat>, k: nat) returns (free: nat)
    requires Ascending(cols, k) && |cols| < k
    ensures free < k && free !in cols
  {
    if cols == [] || cols[|cols| - 1] != k - 1 {
      free := k - 1;
    } else {
      free := FreeColumn(cols[..|cols| - 1], k - 1);
    }
  }

  /** The kernel vector read off a free column of a reduced system. */
  function KernelFrom(reduced: seq<Equation>, k: nat, cols: seq<nat>, free: nat): (v: seq<nat>)
    requires Echelon(reduced, k, k, cols) && free < k
    ensures |v| == k
  {
    seq(k, c requires 0 <= c < k =>
      if c == free then 1
      else if exists i :: 0 <= i < |cols| && cols[i] == c && reduced[i].coef[free] then 1
      else 0)
  }

  lemma KernelFromFree(reduced: seq<Equation>, k: nat, cols: seq<nat>, free: nat)
    requires Echelon(reduced, k, k, cols) && free < k && free !in cols
    ensures IsKernelVector(reduced, k, KernelFrom(reduced, k, cols, free))
  {
    var v := KernelFrom(reduced, k, cols, free);
    assert v[free] == 1;
    forall r | 0 <= r < |reduced| ensures Dot(reduced[r].coef, v) == 0 {
      KernelFromRow(reduced, k, cols, free, r);
    }
  }

  lemma KernelFromRow(reduced: seq<Equation>, k: nat, cols: seq<nat>, free: nat, r: nat)
    requires Echelon(reduced, k, k, cols) && free < k && free !in cols && r < |reduced|
    ensures Dot(reduced[r].coef, KernelFrom(reduced, k, cols, free)) == 0
  {
    var v := KernelFrom(reduced, k, cols, free);
    var row := reduced[r].coef;
    if r >= |cols| {
      DotVanishes(row, v);
    } else {
      var c := cols[r];
      assert row[c];
      forall i | 0 <= i < k && i != c && i != free && row[i] ensures v[i] == 0 {
        assert forall j :: 0 <= j < |cols| && row[cols[j]] ==> j == r;
      }
      assert v[c] == if row[free] then 1 else 0;
      if c < free {
        DotPair(row, v, c, free);
      } else {
        DotPair(row, v, free, c);
      }
      XorSelf(v[c]);
    }
  }

  /** Reducing keeps the kernel. */
  lemma ReduceKernel(system: seq<Equation>, k: nat, v: seq<nat>)
    requires Width(system, k)
    ensures IsKernelVector(system, k, v) <==> IsKernelVector(Eliminated(system, k).0, k, v)
  {
    if |v| == k {
      ReduceSolves(Homogeneous(system), k, 0, [], v);
      ReduceHomogeneous(system, k, 0, []);
      var h, g := Homogeneous(system), Homogeneous(Eliminated(system, k).0);
      assert Solves(h, v) <==> Solves(g, v);
      assert Solves(h, v) <==> forall r :: 0 <= r < |system| ==> Dot(h[r].coef, v) == 0;
    }
  }

  /** A reduced system with all `k` pivots fixes every unknown. */
  lemma FullRankSolution(system: seq<Equation>, k: nat, x: seq<nat>, i: nat)
    requires Width(system, k) && |x| == k && i < k
    requires |Eliminated(system, k).1| == k
    requires Solves(Eliminated(system, k).0, x)
    ensures x[i] == Eliminated(system, k).0[i].rhs
  {
    var (reduced, cols) := Eliminated(system, k);
    ReduceEchelon(system, k, 0, []);
    forall c | 0 <= c < k ensures reduced[i].coef[c] == (c == i) {
      AllColumns(cols, k, c);
    }
    DotSingle(reduced[i].coef, x, i);
  }

  /** Elimination finds `k` pivots exactly when the equations determine their unknowns. */
  lemma RankTheorem(system: seq<Equation>, k: nat)
    requires Width(system, k)
    ensures |Eliminated(system, k).1| <= k
    ensures |Eliminated(system, k).1| == k <==> Determined(system, k)
  {
    var (reduced, cols) := Eliminated(system, k);
    ReduceEchelon(system, k, 0, []);
    if |cols| > 0 {
      AscendingFloor(cols, k, |cols| - 1);
    }
    if |cols| < k {
      var free := FreeColumn(cols, k);
      var v := KernelFrom(reduced, k, cols, free);
      KernelFromFree(reduced, k, cols, free);
      ReduceKernel(system, k, v);
    } else {
      forall v ensures !IsKernelVector(system, k, v) {
        NoKernel(system, k, v);
      }
    }
  }

  lemma NoKernel(system: seq<Equation>, k: nat, v: seq<nat>)
    requires Width(system, k)
    requires |Eliminated(system, k).1| == k
    ensures !IsKernelVector(system, k, v)
  {
    if IsKernelVector(system, k, v) {
      ReduceKernel(system, k, v);
      var h := Homogeneous(system);
      ReduceHomogeneous(system, k, 0, []);
      var i :| 0 <= i < k && v[i] == 1;
      FullRankSolution(h, k, v, i);
    }
  }

  /** Fewer equations than unknowns never determine them. */
  lemma TooFewEquations(system: seq<Equation>, k: nat)
    requires Width(system, k) && |system| < k
    ensures !Determined(system, k)
  {
    RankTheorem(system, k);
  }

  /** A nonzero vector of symbols in the kernel has a nonzero bit plane in the kernel. */
  lemma {:induction false} KernelBitPlane(system: seq<Equation>, k: nat, w: seq<nat>, i: nat) returns (v: seq<nat>)
    requires Width(system, k) && |w| == k && i < k && w[i] > 0
    requires Solves(Homogeneous(system), w)
    ensures IsKernelVector(system, k, v)
    decreases w[i]
  {
    var low := seq(k, c requires 0 <= c < k => w[c] % 2);
    var high := seq(k, c requires 0 <= c < k => w[c] / 2);
    forall r | 0 <= r < |system|
      ensures Dot(system[r].coef, low) == 0 && Dot(system[r].coef, high) == 0
    {
      assert Homogeneous(system)[r].coef == system[r].coef;
      DotHalves(system[r].coef, w, low, high);
    }
    if w[i] % 2 == 1 {
      v := low;
      assert v[i] == 1;
    } else {
      v := KernelBitPlane(system, k, high, i);
    }
  }

  lemma {:induction false} DotHalves(p: seq<bool>, w: seq<nat>, low: seq<nat>, high: seq<nat>)
    requires |p| == |w| == |low| == |high|
    requires forall i :: 0 <= i < |w| ==> low[i] == w[i] % 2 && high[i] == w[i] / 2
    ensures Dot(p, low) == Dot(p, w) % 2 && Dot(p, high) == Dot(p, w) / 2
  {
    hide Xor;
    if p != [] {
      DotHalves(p[1..], w[1..], low[1..], high[1..]);
      XorParts(if p[0] then w[0] else 0, Dot(p[1..], w[1..]));
    }
  }

  lemma XorParts(a: nat, b: nat)
    ensures Xor(a % 2, b % 2) == Xor(a, b) % 2
    ensures Xor(a / 2, b / 2) == Xor(a, b) / 2
  {
    hide Xor;
    XorHalves(a, b);
    XorOfBits(a % 2, b % 2);
    ModSum(a, b);
  }

  lemma XorOfBits(p: nat, q: nat)
    requires p <= 1 && q <= 1
    ensures Xor(p, q) == (p + q) % 2
  {
    XorSelf(p);
    XorZero(p);
    XorZero(q);
  }

  lemma ModSum(a: nat, b: nat)
    ensures (a + b) % 2 == (a % 2 + b % 2) % 2
  {
  }

  /** Given one solution, a second one exists exactly when the kernel is not trivial. */
  lemma AmbiguousIffKernel(system: seq<Equation>, k: nat, x: seq<nat>)
    requires Width(system, k) && |x| == k && Solves(system, x)
    ensures !Determined(system, k) <==> exists y: seq<nat> :: |y| == k && y != x && Solves(system, y)
  {
    if v :| IsKernelVector(system, k, v) {
      SecondSolution(system, k, x, v);
    }
    if y: seq<nat> :| |y| == k && y != x && Solves(system, y) {
      var w := AddVectors(x, y);
      var i :| 0 <= i < k && x[i] != y[i];
      XorEq(x[i], y[i]);
      forall r | 0 <= r < |system| ensures Dot(system[r].coef, w) == 0 {
        DotAddVectors(system[r].coef, x, y);
        XorSelf(system[r].rhs);
      }
      var v := KernelBitPlane(system, k, w, i);
    }
  }

  /** Flipping the low bits marked by a kernel vector gives another solution. */
  lemma SecondSolution(system: seq<Equation>, k: nat, x: seq<nat>, v: seq<nat>)
    requires Width(system, k) && |x| == k && Solves(system, x)
    requires IsKernelVector(system, k, v)
    ensures AddVectors(x, v) != x && Solves(system, AddVectors(x, v))
  {
    var y := AddVectors(x, v);
    forall r | 0 <= r < |system| ensures Dot(system[r].coef, y) == system[r].rhs {
      DotAddVectors(system[r].coef, x, v);
      XorZero(system[r].rhs);
    }
    var i :| 0 <= i < k && v[i] == 1;
    XorHalves(x[i], 1);
    assert y[i] % 2 != x[i] % 2;
  }
}
