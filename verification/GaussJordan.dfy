/** The decoder's elimination: Gauss-Jordan in place on the coefficient rows and the payload words. */
module GaussJordan {
  import opened Wrappers
  import opened BitXor
  import opened Gf2

  /** The system held by the two parallel tables. */
  function Zip(rows: seq<seq<bool>>, words: seq<nat>): (s: seq<Equation>)
    requires |rows| == |words|
    ensures |s| == |rows|
  {
    seq(|rows|, r requires 0 <= r < |rows| => Equation(rows[r], words[r]))
  }

  /** The `pivots` dictionary: the row holding the pivot of each pivot column. */
  function PivotMap(cols: seq<nat>): map<nat, nat> {
    if cols == [] then map[] else PivotMap(cols[..|cols| - 1])[cols[|cols| - 1] := |cols| - 1]
  }

  lemma {:induction false} PivotMapSize(cols: seq<nat>, bound: nat)
    requires Ascending(cols, bound)
    ensures |PivotMap(cols)| == |cols|
    ensures forall c :: c in PivotMap(cols) ==> c < bound
    ensures forall i :: 0 <= i < |cols| ==> cols[i] in PivotMap(cols) && PivotMap(cols)[cols[i]] == i
  {
    if cols != [] {
      var n := |cols| - 1;
      PivotMapSize(cols[..n], cols[n]);
      assert cols[n] !in PivotMap(cols[..n]);
    }
  }

  /** Adds row `pivot` into row `r`, one coefficient at a time. */
  method AddRowInPlace(matrix: array<seq<bool>>, payloads: array<nat>, k: nat, r: nat, pivot: nat)
    requires matrix.Length == payloads.Length
    requires r < matrix.Length && pivot < matrix.Length && r != pivot
    requires |matrix[r]| == k && |matrix[pivot]| == k
    modifies matrix, payloads
    ensures matrix[..] == old(matrix[..])[r := AddRows(old(matrix[r]), old(matrix[pivot]))]
    ensures payloads[..] == old(payloads[..])[r := Xor(old(payloads[r]), old(payloads[pivot]))]
  {
    for c := 0 to k
      invariant |matrix[r]| == k
      invariant forall i :: 0 <= i < c ==> matrix[r][i] == (old(matrix[r])[i] != old(matrix[pivot])[i])
      invariant forall i :: c <= i < k ==> matrix[r][i] == old(matrix[r])[i]
      invariant forall i :: 0 <= i < matrix.Length && i != r ==> matrix[i] == old(matrix[i])
      invariant payloads[..] == old(payloads[..])
    {
      matrix[r] := matrix[r][c := matrix[r][c] != matrix[pivot][c]];
    }
    assert matrix[r] == AddRows(old(matrix[r]), old(matrix[pivot]));
    payloads[r] := Xor(payloads[r], payloads[pivot]);
  }

  method ClearColumnInPlace(matrix: array<seq<bool>>, payloads: array<nat>, k: nat, pivot: nat, col: nat)
    requires matrix.Length == payloads.Length
    requires Width(Zip(matrix[..], payloads[..]), k)
    requires pivot < matrix.Length && col < k
    modifies matrix, payloads
    ensures Zip(matrix[..], payloads[..]) == ClearColumn(old(Zip(matrix[..], payloads[..])), k, pivot, col)
  {
    ghost var before := Zip(matrix[..], payloads[..]);
    ghost var after := ClearColumn(before, k, pivot, col);
    for r := 0 to matrix.Length
      invariant forall i :: 0 <= i < r ==> Equation(matrix[i], payloads[i]) == after[i]
      invariant forall i :: r <= i < matrix.Length ==> Equation(matrix[i], payloads[i]) == before[i]
      invariant Equation(matrix[pivot], payloads[pivot]) == before[pivot]
    {
      assert before[r].coef == matrix[r] && |before[r].coef| == k && |before[pivot].coef| == k;
      if r != pivot && matrix[r][col] {
        AddRowInPlace(matrix, payloads, k, r, pivot);
      }
    }
    assert Zip(matrix[..], payloads[..]) == after;
  }

  /** Brings the pivot row into position and clears its column everywhere else. */
  method UsePivot(matrix: array<seq<bool>>, payloads: array<nat>, k: nat, col: nat, currentRow: nat, pivotRow: nat)
    requires matrix.Length == payloads.Length
    requires Width(Zip(matrix[..], payloads[..]), k)
    requires currentRow < matrix.Length && pivotRow < matrix.Length && col < k
    modifies matrix, payloads
    ensures Zip(matrix[..], payloads[..])
         == ClearColumn(SwapRows(old(Zip(matrix[..], payloads[..])), currentRow, pivotRow), k, currentRow, col)
  {
    ghost var before := Zip(matrix[..], payloads[..]);
    matrix[currentRow], matrix[pivotRow] := matrix[pivotRow], matrix[currentRow];
    payloads[currentRow], payloads[pivotRow] := payloads[pivotRow], payloads[currentRow];
    assert Zip(matrix[..], payloads[..]) == SwapRows(before, currentRow, pivotRow);
    ClearColumnInPlace(matrix, payloads, k, currentRow, col);
  }

  /** Solves in place; the result is that of the elimination function on the initial system. */
  method Eliminate(matrix: array<seq<bool>>, payloads: array<nat>, k: nat) returns (pivots: map<nat, nat>)
    requires matrix.Length == payloads.Length
    requires Width(Zip(matrix[..], payloads[..]), k)
    modifies matrix, payloads
    ensures Width(old(Zip(matrix[..], payloads[..])), k)
    ensures var r := Eliminated(old(Zip(matrix[..], payloads[..])), k);
            Zip(matrix[..], payloads[..]) == r.0 && pivots == PivotMap(r.1)
  {
    ghost var start := Zip(matrix[..], payloads[..]);
    ghost var cols: seq<nat> := [];
    assert Reduce(start, k, 0, []) == Eliminated(start, k);
    var currentRow := 0;
    pivots := map[];
    assert pivots == PivotMap(cols);
    assert Ascending(cols, 0);
    hide *;
    for col := 0 to k
      invariant Width(Zip(matrix[..], payloads[..]), k)
      invariant currentRow == |cols| <= matrix.Length
      invariant Ascending(cols, col) && pivots == PivotMap(cols)
      invariant Reduce(Zip(matrix[..], payloads[..]), k, col, cols) == Eliminated(start, k)
    {
      var pivotRow := SearchPivot(matrix, payloads, k, col, currentRow);
      ReduceStep(Zip(matrix[..], payloads[..]), k, col, cols);
      if pivotRow.Some? {
        UsePivot(matrix, payloads, k, col, currentRow, pivotRow.value);
        pivots := pivots[col := currentRow];
        PivotMapSnoc(cols, col);
        cols := cols + [col];
        currentRow := currentRow + 1;
        LastPivot(cols, k, col);
        if |pivots| == k {
          break;
        }
      }
    }
    ReduceDone(Zip(matrix[..], payloads[..]), k, cols);
  }

  lemma ReduceStep(system: seq<Equation>, k: nat, col: nat, cols: seq<nat>)
    requires Width(system, k) && col < k && |cols| <= |system|
    requires Ascending(cols, col)
    ensures Ascending(cols, col + 1) && Ascending(cols + [col], col + 1)
    ensures var p := FindPivot(system, k, col, |cols|);
            Reduce(system, k, col, cols) ==
              if p.None? then Reduce(system, k, col + 1, cols)
              else Reduce(ClearColumn(SwapRows(system, |cols|, p.value), k, |cols|, col), k, col + 1, cols + [col])
  {
  }

  lemma ReduceDone(system: seq<Equation>, k: nat, cols: seq<nat>)
    requires Width(system, k) && |cols| <= |system|
    ensures Reduce(system, k, k, cols) == (system, cols)
  {
  }

  lemma PivotMapSnoc(cols: seq<nat>, col: nat)
    ensures PivotMap(cols + [col]) == PivotMap(cols)[col := |cols|]
  {
    assert (cols + [col])[..|cols|] == cols;
  }

  /** All `k` pivots are found only in the last column, so leaving the loop then skips nothing. */
  lemma LastPivot(cols: seq<nat>, k: nat, col: nat)
    requires Ascending(cols, col + 1) && col < k
    ensures |PivotMap(cols)| == k ==> col + 1 == k
  {
    PivotMapSize(cols, col + 1);
    if |cols| > 0 {
      AscendingFloor(cols, col + 1, |cols| - 1);
    }
  }

  method SearchPivot(matrix: array<seq<bool>>, payloads: array<nat>, k: nat, col: nat, from: nat)
    returns (pivotRow: Option<nat>)
    requires matrix.Length == payloads.Length
    requires Width(Zip(matrix[..], payloads[..]), k) && col < k && from <= matrix.Length
    ensures pivotRow == FindPivot(Zip(matrix[..], payloads[..]), k, col, from)
  {
    ghost var system := Zip(matrix[..], payloads[..]);
    pivotRow := None;
    for r := from to matrix.Length
      invariant FindPivot(system, k, col, r) == FindPivot(system, k, col, from)
    {
      assert system[r].coef == matrix[r];
      if matrix[r][col] {
        pivotRow := Some(r);
        break;
      }
    }
  }
}
