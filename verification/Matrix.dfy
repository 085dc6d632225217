/** Matrix multiplication in utils/matrixMul: the plain loops of matrix_basic.c, the tiled loops of
    matrix_cache.c, and the tiled, four-lane, parallel loops of matrix_optimized.c.

    The element type and its arithmetic are parameters: `step(acc, a, b)` stands for `acc + a * b`
    with whatever rounding, or for a fused multiply-add.  No algebraic law is assumed, so equal here
    means equal bit for bit.  The lane updates of the optimized loops are steps: the loops make each step once, in
    an order that is one interleaving of the tiles, and every interleaving gives the same matrix.
 */
module Matrix {
  import opened Common

  datatype Arithmetic<!T> = Arithmetic(zero: T, step: (T, T, T) -> T)

  // ---------------------------------------------------------------------------------------------
  // Plain and tiled multiplication
  // ---------------------------------------------------------------------------------------------

  /** The square matrices of one multiplication; the result is not one of the operands. */
  ghost predicate Square<T>(n: nat, A: array2<T>, B: array2<T>, C: array2<T>) {
    && A.Length0 == A.Length1 == B.Length0 == B.Length1 == C.Length0 == C.Length1 == n
    && C != A && C != B
  }

  /** The running sum of cell (i, j) after the first `k` products, in order. */
  ghost function Cell<T>(ar: Arithmetic<T>, A: array2<T>, B: array2<T>, i: nat, j: nat, k: nat): T
    requires A.Length0 == A.Length1 == B.Length0 == B.Length1
    requires i < A.Length0 && j < A.Length0 && k <= A.Length0
    reads A, B
  {
    if k == 0 then ar.zero else ar.step(Cell(ar, A, B, i, j, k - 1), A[i, k - 1], B[k - 1, j])
  }

  /** A cell depends only on its row of the first matrix and its column of the second. */
  lemma {:induction false} CellDependsOn<T>(ar: Arithmetic<T>, A: array2<T>, B: array2<T>, A': array2<T>, B': array2<T>,
                                            i: nat, j: nat, k: nat)
    requires A.Length0 == A.Length1 == B.Length0 == B.Length1 == A'.Length0 == A'.Length1 == B'.Length0 == B'.Length1
    requires i < A.Length0 && j < A.Length0 && k <= A.Length0
    requires forall x | 0 <= x < A.Length0 :: A[i, x] == A'[i, x] && B[x, j] == B'[x, j]
    ensures Cell(ar, A, B, i, j, k) == Cell(ar, A', B', i, j, k)
  {
    if k > 0 { CellDependsOn(ar, A, B, A', B', i, j, k - 1); }
  }

  /** Exact arithmetic on integers. */
  const EXACT: Arithmetic<int> := Arithmetic(0, (acc: int, a: int, b: int) => acc + a * b)

  ghost predicate IsIdentity(I: array2<int>)
    reads I
  {
    && I.Length0 == I.Length1
    && forall x, y | 0 <= x < I.Length0 && 0 <= y < I.Length0 :: I[x, y] == if x == y then 1 else 0
  }

  /** Multiplying by the identity on either side changes nothing. */
  lemma {:induction false} TimesIdentity(A: array2<int>, I: array2<int>, i: nat, j: nat, k: nat)
    requires A.Length0 == A.Length1 == I.Length0 == I.Length1 && IsIdentity(I)
    requires i < A.Length0 && j < A.Length0 && k <= A.Length0
    ensures Cell(EXACT, A, I, i, j, k) == if j < k then A[i, j] else 0
    ensures Cell(EXACT, I, A, i, j, k) == if i < k then A[i, j] else 0
  {
    if k > 0 { TimesIdentity(A, I, i, j, k - 1); }
  }

  /** The cells of a rectangle of `C` have their running sums after `k` products. */
  ghost predicate SummedTo<T>(ar: Arithmetic<T>, A: array2<T>, B: array2<T>, C: array2<T>, i: nat, iEnd: nat, j: nat,
                              jEnd: nat, k: nat)
    requires Square(A.Length0, A, B, C) && iEnd <= A.Length0 && jEnd <= A.Length0 && k <= A.Length0
    reads A, B, C
  {
    forall x, y | i <= x < iEnd && j <= y < jEnd :: C[x, y] == Cell(ar, A, B, x, y, k)
  }

  /** Nothing outside a rectangle has changed. */
  twostate predicate OnlyWithin<T>(C: array2<T>, i: nat, iEnd: nat, j: nat, jEnd: nat)
    reads C
  {
    forall x, y | 0 <= x < C.Length0 && 0 <= y < C.Length1 && !(i <= x < iEnd && j <= y < jEnd) ::
      C[x, y] == old(C[x, y])
  }

  /** matrix_basic.c. */
  method Multiply<T>(ar: Arithmetic<T>, n: nat, A: array2<T>, B: array2<T>, C: array2<T>)
    requires Square(n, A, B, C)
    modifies C
    ensures SummedTo(ar, A, B, C, 0, n, 0, n, n)
  {
    for i := 0 to n
      invariant SummedTo(ar, A, B, C, 0, i, 0, n, n)
    {
      for j := 0 to n
        invariant SummedTo(ar, A, B, C, 0, i, 0, n, n) && SummedTo(ar, A, B, C, i, i + 1, 0, j, n)
      {
        C[i, j] := ar.zero;
        for k := 0 to n
          invariant SummedTo(ar, A, B, C, 0, i, 0, n, n) && SummedTo(ar, A, B, C, i, i + 1, 0, j, n)
          invariant C[i, j] == Cell(ar, A, B, i, j, k)
        {
          C[i, j] := ar.step(C[i, j], A[i, k], B[k, j]);
        }
      }
    }
  }

  /** The innermost loop of the tiled multiplication: one product for each cell of a strip of a row. */
  method AddToStrip<T>(ar: Arithmetic<T>, A: array2<T>, B: array2<T>, C: array2<T>, ii: nat, kk: nat, j: nat, jEnd: nat)
    requires Square(A.Length0, A, B, C) && ii < A.Length0 && kk < A.Length0 && j <= jEnd <= A.Length0
    requires SummedTo(ar, A, B, C, ii, ii + 1, j, jEnd, kk)
    modifies C
    ensures SummedTo(ar, A, B, C, ii, ii + 1, j, jEnd, kk + 1) && OnlyWithin(C, ii, ii + 1, j, jEnd)
  {
    for jj := j to jEnd
      invariant SummedTo(ar, A, B, C, ii, ii + 1, j, jj, kk + 1) && SummedTo(ar, A, B, C, ii, ii + 1, jj, jEnd, kk)
      invariant OnlyWithin(C, ii, ii + 1, j, jEnd)
    {
      C[ii, jj] := ar.step(C[ii, jj], A[ii, kk], B[kk, jj]);
    }
  }

  /** One block times one block. */
  method MultiplyBlock<T>(ar: Arithmetic<T>, A: array2<T>, B: array2<T>, C: array2<T>, i: nat, iEnd: nat, k: nat,
                          kEnd: nat, j: nat, jEnd: nat)
    requires Square(A.Length0, A, B, C) && i <= iEnd <= A.Length0 && k <= kEnd <= A.Length0 && j <= jEnd <= A.Length0
    requires SummedTo(ar, A, B, C, i, iEnd, j, jEnd, k)
    modifies C
    ensures SummedTo(ar, A, B, C, i, iEnd, j, jEnd, kEnd) && OnlyWithin(C, i, iEnd, j, jEnd)
  {
    for ii := i to iEnd
      invariant SummedTo(ar, A, B, C, i, ii, j, jEnd, kEnd) && SummedTo(ar, A, B, C, ii, iEnd, j, jEnd, k)
      invariant OnlyWithin(C, i, iEnd, j, jEnd)
    {
      for kk := k to kEnd
        invariant SummedTo(ar, A, B, C, i, ii, j, jEnd, kEnd) && SummedTo(ar, A, B, C, ii + 1, iEnd, j, jEnd, k)
        invariant SummedTo(ar, A, B, C, ii, ii + 1, j, jEnd, kk) && OnlyWithin(C, i, iEnd, j, jEnd)
      {
        AddToStrip(ar, A, B, C, ii, kk, j, jEnd);
      }
    }
  }

  /** matrix_cache.c, for every size and every block size: the same sums in the same order as the plain loops. */
  method MultiplyBlocked<T>(ar: Arithmetic<T>, n: nat, blockSize: nat, A: array2<T>, B: array2<T>, C: array2<T>)
    requires Square(n, A, B, C) && blockSize >= 1
    modifies C
    ensures SummedTo(ar, A, B, C, 0, n, 0, n, n)
  {
    for i := 0 to n
      invariant SummedTo(ar, A, B, C, 0, i, 0, n, 0)
    {
      for j := 0 to n
        invariant SummedTo(ar, A, B, C, 0, i, 0, n, 0) && SummedTo(ar, A, B, C, i, i + 1, 0, j, 0)
      {
        C[i, j] := ar.zero;
      }
    }
    var i := 0;
    while i < n
      invariant SummedTo(ar, A, B, C, 0, Min(i, n), 0, n, n) && SummedTo(ar, A, B, C, Min(i, n), n, 0, n, 0)
    {
      MultiplyStripe(ar, n, blockSize, A, B, C, i, Min(i + blockSize, n));
      i := i + blockSize;
    }
  }

  /** The blocks of one stripe of rows. */
  method MultiplyStripe<T>(ar: Arithmetic<T>, n: nat, blockSize: nat, A: array2<T>, B: array2<T>, C: array2<T>,
                           i: nat, iEnd: nat)
    requires Square(n, A, B, C) && blockSize >= 1 && i <= iEnd <= n
    requires SummedTo(ar, A, B, C, i, iEnd, 0, n, 0)
    modifies C
    ensures SummedTo(ar, A, B, C, i, iEnd, 0, n, n) && OnlyWithin(C, i, iEnd, 0, n)
  {
    var k := 0;
    while k < n
      invariant SummedTo(ar, A, B, C, i, iEnd, 0, n, Min(k, n)) && OnlyWithin(C, i, iEnd, 0, n)
    {
      var kEnd := Min(k + blockSize, n);
      var j := 0;
      while j < n
        invariant OnlyWithin(C, i, iEnd, 0, n)
        invariant SummedTo(ar, A, B, C, i, iEnd, 0, Min(j, n), kEnd) && SummedTo(ar, A, B, C, i, iEnd, Min(j, n), n, k)
      {
        MultiplyBlock(ar, A, B, C, i, iEnd, k, kEnd, j, Min(j + blockSize, n));
        j := j + blockSize;
      }
      k := k + blockSize;
    }
  }

  // ---------------------------------------------------------------------------------------------
  // Four lanes on flat arrays
  // ---------------------------------------------------------------------------------------------

  /** The position at which row `i` starts, `i * n`. */
  function RowStart(n: nat, i: nat): nat { if i == 0 then 0 else RowStart(n, i - 1) + n }

  lemma {:induction false} RowStartIsProduct(n: nat, i: nat)
    ensures RowStart(n, i) == i * n
  {
    if i > 0 {
      RowStartIsProduct(n, i - 1);
      assert (i - 1) * n + n == i * n;
    }
  }

  lemma {:induction false} RowsApart(n: nat, i: nat, x: nat)
    requires i < x
    ensures RowStart(n, i) + n <= RowStart(n, x)
    decreases x
  {
    if i < x - 1 { RowsApart(n, i, x - 1); }
  }

  /** Row-major position of cell (i, j). */
  function At(n: nat, i: nat, j: nat): (k: nat)
    requires i < n && j < n
    ensures k < RowStart(n, n)
  {
    RowsApart(n, i, n);
    RowStart(n, i) + j
  }

  /** Row-major order. */
  lemma AtIsProduct(n: nat, i: nat, j: nat)
    requires i < n && j < n
    ensures At(n, i, j) == i * n + j
  {
    RowStartIsProduct(n, i);
  }

  /** The four positions from cell (i, j) on are those of the next four cells of its row. */
  lemma LaneCells(n: nat, i: nat, j: nat)
    requires i < n && j + 4 <= n
    ensures At(n, i, j + 1) == At(n, i, j) + 1 && At(n, i, j + 2) == At(n, i, j) + 2
    ensures At(n, i, j + 3) == At(n, i, j) + 3
    ensures forall x: nat, y: nat | x < n && y < n ::
      At(n, i, j) <= At(n, x, y) < At(n, i, j) + 4 <==> x == i && j <= y < j + 4
  {
    forall x: nat, y: nat | x < n && y < n
      ensures At(n, i, j) <= At(n, x, y) < At(n, i, j) + 4 <==> x == i && j <= y < j + 4
    {
      if i < x { RowsApart(n, i, x); }
      if x < i { RowsApart(n, x, i); }
    }
  }

  ghost predicate Flat<T>(n: nat, A: array<T>, B: array<T>, C: array<T>) {
    A.Length == B.Length == C.Length == RowStart(n, n) && C != A && C != B
  }

  /** The running sum of cell (i, j) after `k` products. */
  ghost function FlatCell<T>(ar: Arithmetic<T>, n: nat, A: array<T>, B: array<T>, i: nat, j: nat, k: nat): T
    requires A.Length == B.Length == RowStart(n, n) && i < n && j < n && k <= n
    reads A, B
  {
    if k == 0 then ar.zero else ar.step(FlatCell(ar, n, A, B, i, j, k - 1), A[At(n, i, k - 1)], B[At(n, k - 1, j)])
  }

  /** The columns that lanes can reach: the largest multiple of four up to `n`. */
  function Lanes(n: nat): nat { n - n % 4 }

  /** The lane of column `y`. */
  function LaneOf(y: nat): nat { y - y % 4 }

  lemma SameLane(jj: nat, y: nat)
    requires jj % 4 == 0
    ensures jj <= y < jj + 4 <==> jj == LaneOf(y)
  {
  }

  /** The origin of the tile that row or column `x` belongs to: the last multiple of `blockSize` up to `x`. */
  function Origin(x: nat, blockSize: nat): nat
    requires blockSize > 0
  {
    if x < blockSize then 0 else Origin(x - blockSize, blockSize) + blockSize
  }

  lemma {:induction false} OriginIff(x: nat, i: nat, blockSize: nat)
    requires blockSize > 0 && Origin(i, blockSize) == i
    ensures Origin(x, blockSize) == i <==> i <= x < i + blockSize
  {
    if x >= blockSize && i >= blockSize { OriginIff(x - blockSize, i - blockSize, blockSize); }
  }

  lemma {:induction false} OriginMonotone(x: nat, y: nat, blockSize: nat)
    requires blockSize > 0 && x <= y
    ensures Origin(x, blockSize) <= Origin(y, blockSize)
  {
    if x >= blockSize { OriginMonotone(x - blockSize, y - blockSize, blockSize); }
  }

  lemma {:induction false} OriginAtMost(x: nat, blockSize: nat)
    requires blockSize > 0
    ensures Origin(x, blockSize) <= x
  {
    if x >= blockSize { OriginAtMost(x - blockSize, blockSize); }
  }

  // ---------------------------------------------------------------------------------------------
  // The steps of the loops
  // ---------------------------------------------------------------------------------------------

  /** One load, fused multiply-add and store, of the four cells from (ii, jj) on with product `kk`. */
  datatype LaneStep = LaneStep(ii: nat, kk: nat, jj: nat)

  /** The steps that the loops make. */
  predicate OnGrid(n: nat, step: LaneStep) { step.ii < n && step.kk < n && step.jj % 4 == 0 && step.jj + 4 <= n }

  predicate SameTile(a: LaneStep, b: LaneStep, blockSize: nat)
    requires blockSize > 0
  {
    Origin(a.ii, blockSize) == Origin(b.ii, blockSize) && Origin(a.jj, blockSize) == Origin(b.jj, blockSize)
  }

  /** The order of a tile's own loops: over blocks of `kk`, over `ii`, over `kk`, over `jj`. */
  predicate Precedes(a: LaneStep, b: LaneStep, blockSize: nat)
    requires blockSize > 0
  {
    var ka, kb := Origin(a.kk, blockSize), Origin(b.kk, blockSize);
    ka < kb || (ka == kb && (a.ii < b.ii || (a.ii == b.ii && (a.kk < b.kk || (a.kk == b.kk && a.jj < b.jj)))))
  }

  ghost predicate AllOnGrid(n: nat, trace: seq<LaneStep>) { forall p | 0 <= p < |trace| :: OnGrid(n, trace[p]) }

  /** The result after one step. */
  function AfterStep<T>(ar: Arithmetic<T>, n: nat, A: seq<T>, B: seq<T>, C: seq<T>, step: LaneStep): (C': seq<T>)
    requires |A| == |B| == |C| == RowStart(n, n) && OnGrid(n, step)
    ensures |C'| == |C|
  {
    var a := A[At(n, step.ii, step.kk)];
    LaneCells(n, step.kk, step.jj);
    LaneCells(n, step.ii, step.jj);
    var b, c := At(n, step.kk, step.jj), At(n, step.ii, step.jj);
    C[c := ar.step(C[c], a, B[b])][c + 1 := ar.step(C[c + 1], a, B[b + 1])]
     [c + 2 := ar.step(C[c + 2], a, B[b + 2])][c + 3 := ar.step(C[c + 3], a, B[b + 3])]
  }

  ghost function Execute<T>(ar: Arithmetic<T>, n: nat, A: seq<T>, B: seq<T>, C: seq<T>,
                            trace: seq<LaneStep>): (C': seq<T>)
    requires |A| == |B| == |C| == RowStart(n, n) && AllOnGrid(n, trace)
    ensures |C'| == |C|
  {
    if trace == [] then C
    else AfterStep(ar, n, A, B, Execute(ar, n, A, B, C, trace[..|trace| - 1]), trace[|trace| - 1])
  }

  /** From `C`, the steps of the trace lead to `C'`. */
  ghost predicate Leads<T>(ar: Arithmetic<T>, n: nat, A: seq<T>, B: seq<T>, C: seq<T>, trace: seq<LaneStep>, C': seq<T>)
  {
    |A| == |B| == |C| == RowStart(n, n) && AllOnGrid(n, trace) && C' == Execute(ar, n, A, B, C, trace)
  }

  lemma {:induction false} LeadsOn<T>(ar: Arithmetic<T>, n: nat, A: seq<T>, B: seq<T>, C: seq<T>, a: seq<LaneStep>,
                                      C1: seq<T>, b: seq<LaneStep>, C2: seq<T>)
    requires Leads(ar, n, A, B, C, a, C1) && Leads(ar, n, A, B, C1, b, C2)
    ensures Leads(ar, n, A, B, C, a + b, C2)
    decreases |b|
  {
    if b == [] {
      assert a + b == a;
    } else {
      var most := b[..|b| - 1];
      LeadsOn(ar, n, A, B, C, a, C1, most, Execute(ar, n, A, B, C1, most));
      assert (a + b)[..|a + b| - 1] == a + most;
    }
  }

  lemma OneStep<T>(ar: Arithmetic<T>, n: nat, A: seq<T>, B: seq<T>, C: seq<T>, step: LaneStep)
    requires |A| == |B| == |C| == RowStart(n, n) && OnGrid(n, step)
    ensures Leads(ar, n, A, B, C, [step], AfterStep(ar, n, A, B, C, step))
  {
    assert [step][..0] == [];
  }

  /** A block of steps: rows, products and columns. */
  datatype Box = Box(i: nat, iEnd: nat, k: nat, kEnd: nat, j: nat, jEnd: nat)

  predicate Within(n: nat, box: Box, step: LaneStep) {
    && OnGrid(n, step) && box.i <= step.ii < box.iEnd && box.k <= step.kk < box.kEnd && box.j <= step.jj < box.jEnd
  }

  /** The steps of a block, each once, in the order of the loops. */
  ghost predicate Traces(trace: seq<LaneStep>, n: nat, blockSize: nat, box: Box)
    requires blockSize > 0
  {
    && (forall p | 0 <= p < |trace| :: Within(n, box, trace[p]))
    && (forall step | Within(n, box, step) :: step in trace)
    && (forall p, q | 0 <= p < q < |trace| :: Precedes(trace[p], trace[q], blockSize))
  }

  ghost predicate AllPrecede(n: nat, blockSize: nat, a: Box, b: Box)
    requires blockSize > 0
  {
    forall step, step' | Within(n, a, step) && Within(n, b, step') :: Precedes(step, step', blockSize)
  }

  lemma TracesJoin(s: seq<LaneStep>, s': seq<LaneStep>, n: nat, blockSize: nat, a: Box, b: Box, box: Box)
    requires blockSize > 0 && Traces(s, n, blockSize, a) && Traces(s', n, blockSize, b)
    requires AllPrecede(n, blockSize, a, b)
    requires forall step :: Within(n, box, step) <==> Within(n, a, step) || Within(n, b, step)
    ensures Traces(s + s', n, blockSize, box)
  {
    forall step | Within(n, box, step) ensures step in s + s' {
      assert step in s || step in s';
    }
  }

  /** The next lane of a row of steps. */
  lemma LaneTraced(s: seq<LaneStep>, n: nat, blockSize: nat, box: Box, jj: nat)
    requires blockSize > 0 && box.iEnd == box.i + 1 && box.kEnd == box.k + 1 && box.i < n && box.k < n
    requires box.j <= jj < box.jEnd && jj % 4 == 0 && jj + 4 <= n
    requires Traces(s, n, blockSize, box.(jEnd := jj))
    ensures Traces(s + [LaneStep(box.i, box.k, jj)], n, blockSize, box.(jEnd := Min(jj + 4, box.jEnd)))
  {
    var next := box.(j := jj, jEnd := Min(jj + 4, box.jEnd));
    forall step | Within(n, next, step) ensures step == LaneStep(box.i, box.k, jj) { SameLane(jj, step.jj); }
    TracesJoin(s, [LaneStep(box.i, box.k, jj)], n, blockSize, box.(jEnd := jj), next, box.(jEnd := next.jEnd));
  }

  /** There are no lanes beyond the last full one. */
  lemma NoLaneTraced(s: seq<LaneStep>, n: nat, blockSize: nat, box: Box, jj: nat, jEnd: nat)
    requires blockSize > 0 && n < jj + 4 && jj <= jEnd
    requires Traces(s, n, blockSize, box.(jEnd := jj))
    ensures Traces(s, n, blockSize, box.(jEnd := jEnd))
  {
    forall step ensures Within(n, box.(jEnd := jj), step) <==> Within(n, box.(jEnd := jEnd), step) {
    }
  }

  /** In one row and one block of products, smaller products come first. */
  lemma ProductTraced(s: seq<LaneStep>, s': seq<LaneStep>, n: nat, blockSize: nat, box: Box, kk: nat)
    requires blockSize > 0 && box.iEnd == box.i + 1 && Origin(box.k, blockSize) == box.k <= kk < box.k + blockSize
    requires Traces(s, n, blockSize, box.(kEnd := kk)) && Traces(s', n, blockSize, box.(k := kk, kEnd := kk + 1))
    ensures Traces(s + s', n, blockSize, box.(kEnd := kk + 1))
  {
    SameBlock(n, blockSize, box.(kEnd := kk + 1));
    assert AllPrecede(n, blockSize, box.(kEnd := kk), box.(k := kk, kEnd := kk + 1));
    TracesJoin(s, s', n, blockSize, box.(kEnd := kk), box.(k := kk, kEnd := kk + 1), box.(kEnd := kk + 1));
  }

  /** In one block of products, smaller rows come first. */
  lemma RowTraced(s: seq<LaneStep>, s': seq<LaneStep>, n: nat, blockSize: nat, box: Box, ii: nat)
    requires blockSize > 0 && box.i <= ii && Origin(box.k, blockSize) == box.k && box.kEnd <= box.k + blockSize
    requires Traces(s, n, blockSize, box.(iEnd := ii)) && Traces(s', n, blockSize, box.(i := ii, iEnd := ii + 1))
    ensures Traces(s + s', n, blockSize, box.(iEnd := ii + 1))
  {
    SameBlock(n, blockSize, box.(iEnd := ii + 1));
    assert AllPrecede(n, blockSize, box.(iEnd := ii), box.(i := ii, iEnd := ii + 1));
    TracesJoin(s, s', n, blockSize, box.(iEnd := ii), box.(i := ii, iEnd := ii + 1), box.(iEnd := ii + 1));
  }

  /** Smaller blocks of products come first. */
  lemma BlockTraced(s: seq<LaneStep>, s': seq<LaneStep>, n: nat, blockSize: nat, box: Box, k: nat, kEnd: nat)
    requires blockSize > 0 && box.k <= k <= kEnd && Origin(k, blockSize) == k
    requires Traces(s, n, blockSize, box.(kEnd := k)) && Traces(s', n, blockSize, box.(k := k, kEnd := kEnd))
    ensures Traces(s + s', n, blockSize, box.(kEnd := kEnd))
  {
    var a, b := box.(kEnd := k), box.(k := k, kEnd := kEnd);
    forall step, step' | Within(n, a, step) && Within(n, b, step') ensures Precedes(step, step', blockSize) {
      OriginMonotone(k, step'.kk, blockSize);
      OriginAtMost(step.kk, blockSize);
    }
    TracesJoin(s, s', n, blockSize, a, b, box.(kEnd := kEnd));
  }

  predicate IsBlock(k: nat, kEnd: nat, blockSize: nat) {
    blockSize > 0 && Origin(k, blockSize) == k && kEnd <= k + blockSize
  }

  lemma SameBlock(n: nat, blockSize: nat, box: Box)
    requires blockSize > 0 && Origin(box.k, blockSize) == box.k && box.kEnd <= box.k + blockSize
    ensures forall step | Within(n, box, step) :: Origin(step.kk, blockSize) == box.k
  {
    forall step | Within(n, box, step) ensures Origin(step.kk, blockSize) == box.k {
      OriginIff(step.kk, box.k, blockSize);
    }
  }

  /** The first row and column of a tile. */
  predicate IsTile(n: nat, blockSize: nat, tile: (nat, nat))
    requires blockSize > 0
  {
    tile.0 < n && Origin(tile.0, blockSize) == tile.0 && tile.1 < n && Origin(tile.1, blockSize) == tile.1
  }

  /** The tiles in any order, each once. */
  ghost predicate IsSchedule(schedule: seq<(nat, nat)>, n: nat, blockSize: nat)
    requires blockSize > 0
  {
    && (forall t | 0 <= t < |schedule| :: IsTile(n, blockSize, schedule[t]))
    && (forall t, u | 0 <= t < u < |schedule| :: schedule[t] != schedule[u])
    && (forall x: nat, y: nat | x < n && y < n :: (Origin(x, blockSize), Origin(y, blockSize)) in schedule)
  }

  /** An execution of the parallel loop: every step once, interleaved in any way, but the steps of each tile in
      the order of its loops. */
  ghost predicate Interleaves(trace: seq<LaneStep>, n: nat, blockSize: nat)
    requires blockSize > 0
  {
    && blockSize % 4 == 0 && AllOnGrid(n, trace)
    && (forall step | OnGrid(n, step) :: step in trace)
    && (forall p, q | 0 <= p < q < |trace| :: trace[p] != trace[q])
    && (forall p, q | 0 <= p < q < |trace| && SameTile(trace[p], trace[q], blockSize) ::
          Precedes(trace[p], trace[q], blockSize))
  }

  /** The steps of the tiles of `done`, each once, those of each tile in the order of its loops. */
  ghost predicate TilesTraced(trace: seq<LaneStep>, n: nat, blockSize: nat, done: seq<(nat, nat)>)
    requires blockSize > 0
  {
    && AllOnGrid(n, trace)
    && (forall step | OnGrid(n, step) :: step in trace <==> TileOf(step, blockSize) in done)
    && (forall p, q | 0 <= p < q < |trace| :: trace[p] != trace[q])
    && (forall p, q | 0 <= p < q < |trace| && SameTile(trace[p], trace[q], blockSize) ::
          Precedes(trace[p], trace[q], blockSize))
  }

  /** One more tile, after all the others. */
  lemma TileTraced(s: seq<LaneStep>, s': seq<LaneStep>, n: nat, blockSize: nat, done: seq<(nat, nat)>, tile: (nat, nat))
    requires blockSize > 0 && IsTile(n, blockSize, tile)
    requires TilesTraced(s, n, blockSize, done) && tile !in done
    requires Traces(s', n, blockSize, TileBox(n, blockSize, tile))
    ensures TilesTraced(s + s', n, blockSize, done + [tile])
  {
    StepsOfTile(n, blockSize, tile);
    assert forall p | 0 <= p < |s| :: TileOf(s[p], blockSize) in done;
    assert forall p | 0 <= p < |s'| :: TileOf(s'[p], blockSize) == tile;
    forall step | OnGrid(n, step) ensures step in s + s' <==> TileOf(step, blockSize) in done + [tile] {
      assert step in s + s' <==> step in s || step in s';
    }
  }

  function TileOf(step: LaneStep, blockSize: nat): (nat, nat)
    requires blockSize > 0
  {
    (Origin(step.ii, blockSize), Origin(step.jj, blockSize))
  }

  function TileBox(n: nat, blockSize: nat, tile: (nat, nat)): Box {
    Box(tile.0, Min(tile.0 + blockSize, n), 0, n, tile.1, Min(tile.1 + blockSize, n))
  }

  lemma StepsOfTile(n: nat, blockSize: nat, tile: (nat, nat))
    requires blockSize > 0 && IsTile(n, blockSize, tile)
    ensures forall step | OnGrid(n, step) ::
      Within(n, TileBox(n, blockSize, tile), step) <==> TileOf(step, blockSize) == tile
  {
    forall step | OnGrid(n, step)
      ensures Within(n, TileBox(n, blockSize, tile), step) <==> TileOf(step, blockSize) == tile
    {
      OriginIff(step.ii, tile.0, blockSize);
      OriginIff(step.jj, tile.1, blockSize);
    }
  }

  /** The tiles one after the other, in the order of any schedule, are an execution of the parallel loop. */
  lemma ScheduleInterleaves(trace: seq<LaneStep>, n: nat, blockSize: nat, schedule: seq<(nat, nat)>)
    requires blockSize > 0 && blockSize % 4 == 0 && IsSchedule(schedule, n, blockSize)
    requires TilesTraced(trace, n, blockSize, schedule)
    ensures Interleaves(trace, n, blockSize)
  {
    forall step | OnGrid(n, step) ensures step in trace {
      assert TileOf(step, blockSize) in schedule;
    }
  }

  // ---------------------------------------------------------------------------------------------
  // The loops on flat arrays
  // ---------------------------------------------------------------------------------------------

  /** The cells of a rectangle have their running sums after `k` products. */
  ghost predicate FlatSummedTo<T>(ar: Arithmetic<T>, n: nat, A: array<T>, B: array<T>, C: array<T>, i: nat, iEnd: nat,
                                  j: nat, jEnd: nat, k: nat)
    requires Flat(n, A, B, C) && iEnd <= n && jEnd <= n && k <= n
    reads A, B, C
  {
    forall x: nat, y: nat | i <= x < iEnd && j <= y < jEnd :: C[At(n, x, y)] == FlatCell(ar, n, A, B, x, y, k)
  }

  /** Load, fused multiply-add and store of four neighbouring cells of row `ii`. */
  method AddFourLanes<T>(ar: Arithmetic<T>, n: nat, A: array<T>, B: array<T>, C: array<T>, ii: nat, kk: nat, jj: nat)
    requires Flat(n, A, B, C) && OnGrid(n, LaneStep(ii, kk, jj))
    modifies C
    ensures Leads(ar, n, A[..], B[..], old(C[..]), [LaneStep(ii, kk, jj)], C[..])
  {
    LaneCells(n, kk, jj);
    LaneCells(n, ii, jj);
    ghost var before := C[..];
    var a := A[At(n, ii, kk)];
    var b, c := At(n, kk, jj), At(n, ii, jj);
    C[c], C[c + 1], C[c + 2], C[c + 3] :=
      ar.step(C[c], a, B[b]), ar.step(C[c + 1], a, B[b + 1]),
      ar.step(C[c + 2], a, B[b + 2]), ar.step(C[c + 3], a, B[b + 3]);
    assert C[..] == AfterStep(ar, n, A[..], B[..], before, LaneStep(ii, kk, jj));
    OneStep(ar, n, A[..], B[..], before, LaneStep(ii, kk, jj));
  }

  /** The body of the innermost loop. */
  method AddLane<T>(ar: Arithmetic<T>, n: nat, A: array<T>, B: array<T>, C: array<T>, ii: nat, kk: nat, jj: nat,
                    ghost blockSize: nat, ghost box: Box, ghost C0: seq<T>, ghost before: seq<LaneStep>)
    returns (ghost trace: seq<LaneStep>)
    requires Flat(n, A, B, C) && ii < n && kk < n && jj % 4 == 0 && blockSize > 0
    requires box.i == ii && box.iEnd == ii + 1 && box.k == kk && box.kEnd == kk + 1 && box.j <= jj < box.jEnd
    requires Leads(ar, n, A[..], B[..], C0, before, C[..]) && Traces(before, n, blockSize, box.(jEnd := jj))
    modifies C
    ensures Leads(ar, n, A[..], B[..], C0, trace, C[..])
    ensures Traces(trace, n, blockSize, box.(jEnd := Min(jj + 4, box.jEnd)))
  {
    trace := before;
    if jj + 4 <= n {
      ghost var C1 := C[..];
      AddFourLanes(ar, n, A, B, C, ii, kk, jj);
      LeadsOn(ar, n, A[..], B[..], C0, before, C1, [LaneStep(ii, kk, jj)], C[..]);
      LaneTraced(before, n, blockSize, box, jj);
      trace := before + [LaneStep(ii, kk, jj)];
    } else {
      NoLaneTraced(before, n, blockSize, box, jj, Min(jj + 4, box.jEnd));
    }
  }

  /** The innermost loop: one product for every lane that starts in a strip of columns and is inside the matrix. */
  method AddToLanes<T>(ar: Arithmetic<T>, n: nat, A: array<T>, B: array<T>, C: array<T>, ii: nat, kk: nat, j: nat,
                       jEnd: nat, ghost blockSize: nat) returns (ghost trace: seq<LaneStep>)
    requires Flat(n, A, B, C) && ii < n && kk < n && j % 4 == 0 && j <= jEnd <= n && blockSize > 0
    modifies C
    ensures Leads(ar, n, A[..], B[..], old(C[..]), trace, C[..])
    ensures Traces(trace, n, blockSize, Box(ii, ii + 1, kk, kk + 1, j, jEnd))
  {
    ghost var box := Box(ii, ii + 1, kk, kk + 1, j, jEnd);
    trace := [];
    var jj := j;
    while jj < jEnd
      invariant j <= jj && jj % 4 == 0
      invariant Leads(ar, n, A[..], B[..], old(C[..]), trace, C[..])
      invariant Traces(trace, n, blockSize, box.(jEnd := Min(jj, jEnd)))
    {
      trace := AddLane(ar, n, A, B, C, ii, kk, jj, blockSize, box, old(C[..]), trace);
      NextFour(jj);
      jj := jj + 4;
    }
  }

  lemma NextFour(jj: nat)
    requires jj % 4 == 0
    ensures (jj + 4) % 4 == 0
  {
  }

  /** One block of `k` for row `ii` of one (i, j) tile. */
  method MultiplyRowBlock<T>(ar: Arithmetic<T>, n: nat, A: array<T>, B: array<T>, C: array<T>, ii: nat, k: nat,
                             kEnd: nat, j: nat, jEnd: nat, ghost blockSize: nat) returns (ghost trace: seq<LaneStep>)
    requires Flat(n, A, B, C) && ii < n && k <= kEnd <= n && IsBlock(k, kEnd, blockSize)
    requires j % 4 == 0 && j <= jEnd <= n
    modifies C
    ensures Leads(ar, n, A[..], B[..], old(C[..]), trace, C[..])
    ensures Traces(trace, n, blockSize, Box(ii, ii + 1, k, kEnd, j, jEnd))
  {
    ghost var box := Box(ii, ii + 1, k, kEnd, j, jEnd);
    trace := [];
    for kk := k to kEnd
      invariant Leads(ar, n, A[..], B[..], old(C[..]), trace, C[..])
      invariant Traces(trace, n, blockSize, box.(kEnd := kk))
    {
      ghost var before := C[..];
      ghost var more := AddToLanes(ar, n, A, B, C, ii, kk, j, jEnd, blockSize);
      LeadsOn(ar, n, A[..], B[..], old(C[..]), trace, before, more, C[..]);
      assert box.(k := kk, kEnd := kk + 1) == Box(ii, ii + 1, kk, kk + 1, j, jEnd);
      ProductTraced(trace, more, n, blockSize, box, kk);
      trace := trace + more;
    }
  }

  /** One block of `k` of one (i, j) tile. */
  method MultiplyTileBlock<T>(ar: Arithmetic<T>, n: nat, A: array<T>, B: array<T>, C: array<T>, i: nat, iEnd: nat,
                              k: nat, kEnd: nat, j: nat, jEnd: nat, ghost blockSize: nat)
    returns (ghost trace: seq<LaneStep>)
    requires Flat(n, A, B, C) && i <= iEnd <= n && k <= kEnd <= n && IsBlock(k, kEnd, blockSize)
    requires j % 4 == 0 && j <= jEnd <= n
    modifies C
    ensures Leads(ar, n, A[..], B[..], old(C[..]), trace, C[..])
    ensures Traces(trace, n, blockSize, Box(i, iEnd, k, kEnd, j, jEnd))
  {
    ghost var box := Box(i, iEnd, k, kEnd, j, jEnd);
    trace := [];
    for ii := i to iEnd
      invariant Leads(ar, n, A[..], B[..], old(C[..]), trace, C[..])
      invariant Traces(trace, n, blockSize, box.(iEnd := ii))
    {
      ghost var before := C[..];
      ghost var more := MultiplyRowBlock(ar, n, A, B, C, ii, k, kEnd, j, jEnd, blockSize);
      LeadsOn(ar, n, A[..], B[..], old(C[..]), trace, before, more, C[..]);
      RowTraced(trace, more, n, blockSize, box, ii);
      trace := trace + more;
    }
  }

  /** One (i, j) tile, over all blocks of `k`. */
  method MultiplyTile<T>(ar: Arithmetic<T>, n: nat, blockSize: nat, A: array<T>, B: array<T>, C: array<T>, i: nat,
                         iEnd: nat, j: nat, jEnd: nat) returns (ghost trace: seq<LaneStep>)
    requires Flat(n, A, B, C) && blockSize > 0 && i <= iEnd <= n && j % 4 == 0 && j <= jEnd <= n
    modifies C
    ensures Leads(ar, n, A[..], B[..], old(C[..]), trace, C[..])
    ensures Traces(trace, n, blockSize, Box(i, iEnd, 0, n, j, jEnd))
  {
    ghost var box := Box(i, iEnd, 0, n, j, jEnd);
    trace := [];
    var k := 0;
    while k < n
      invariant Origin(k, blockSize) == k
      invariant Leads(ar, n, A[..], B[..], old(C[..]), trace, C[..])
      invariant Traces(trace, n, blockSize, box.(kEnd := Min(k, n)))
    {
      ghost var before := C[..];
      ghost var more := MultiplyTileBlock(ar, n, A, B, C, i, iEnd, k, Min(k + blockSize, n), j, jEnd, blockSize);
      LeadsOn(ar, n, A[..], B[..], old(C[..]), trace, before, more, C[..]);
      BlockTraced(trace, more, n, blockSize, box, k, Min(k + blockSize, n));
      trace := trace + more;
      k := k + blockSize;
    }
  }

  lemma FoursAdd(a: nat, b: nat)
    requires a % 4 == 0 && b % 4 == 0
    ensures (a + b) % 4 == 0
  {
    var p, q := a / 4, b / 4;
    assert a == 4 * p && b == 4 * q;
    FourTimes(p + q);
  }

  lemma FourTimes(q: nat)
    ensures (4 * q) % 4 == 0
  {
  }

  /** A multiple of a multiple of four is one. */
  lemma {:induction false} MultipleOfFour(j: nat, blockSize: nat)
    requires blockSize > 0 && blockSize % 4 == 0 && Origin(j, blockSize) == j
    ensures j % 4 == 0
  {
    if j >= blockSize {
      MultipleOfFour(j - blockSize, blockSize);
      FoursAdd(j - blockSize, blockSize);
    }
  }

  /** One tile of the schedule, after those of `done`. */
  method DoTile<T>(ar: Arithmetic<T>, n: nat, blockSize: nat, A: array<T>, B: array<T>, C: array<T>, tile: (nat, nat),
                   ghost done: seq<(nat, nat)>, ghost C0: seq<T>, ghost before: seq<LaneStep>)
    returns (ghost trace: seq<LaneStep>)
    requires Flat(n, A, B, C) && blockSize > 0 && blockSize % 4 == 0 && IsTile(n, blockSize, tile) && tile !in done
    requires Leads(ar, n, A[..], B[..], C0, before, C[..]) && TilesTraced(before, n, blockSize, done)
    modifies C
    ensures Leads(ar, n, A[..], B[..], C0, trace, C[..]) && TilesTraced(trace, n, blockSize, done + [tile])
  {
    ghost var C1 := C[..];
    var (i, j) := tile;
    MultipleOfFour(j, blockSize);
    trace := MultiplyTile(ar, n, blockSize, A, B, C, i, Min(i + blockSize, n), j, Min(j + blockSize, n));
    LeadsOn(ar, n, A[..], B[..], C0, before, C1, trace, C[..]);
    TileTraced(before, trace, n, blockSize, done, tile);
    trace := before + trace;
  }

  /** The tiles in the order of the schedule. */
  method DoTiles<T>(ar: Arithmetic<T>, n: nat, blockSize: nat, A: array<T>, B: array<T>, C: array<T>,
                    schedule: seq<(nat, nat)>) returns (ghost trace: seq<LaneStep>)
    requires Flat(n, A, B, C) && blockSize > 0 && blockSize % 4 == 0
    requires forall t | 0 <= t < |schedule| :: IsTile(n, blockSize, schedule[t]) && schedule[t] !in schedule[..t]
    modifies C
    ensures Leads(ar, n, A[..], B[..], old(C[..]), trace, C[..]) && TilesTraced(trace, n, blockSize, schedule)
  {
    trace := [];
    for t := 0 to |schedule|
      invariant Leads(ar, n, A[..], B[..], old(C[..]), trace, C[..])
      invariant TilesTraced(trace, n, blockSize, schedule[..t])
    {
      trace := DoTile(ar, n, blockSize, A, B, C, schedule[t], schedule[..t], old(C[..]), trace);
      assert schedule[..t] + [schedule[t]] == schedule[..t + 1];
    }
    assert schedule[..|schedule|] == schedule;
  }

  lemma TilesOnce(schedule: seq<(nat, nat)>, n: nat, blockSize: nat)
    requires blockSize > 0 && IsSchedule(schedule, n, blockSize)
    ensures forall t | 0 <= t < |schedule| :: IsTile(n, blockSize, schedule[t]) && schedule[t] !in schedule[..t]
  {
  }

  /** matrix_optimized.c.  The parallel loop runs the tiles in some order.  The steps that these loops make are one
      of the executions of the parallel loop, all of which give the same result.  Every column that full lanes
      reach has the sums of the plain loops; the last `n % 4` columns are left at zero. */
  method MultiplyOptimized<T>(ar: Arithmetic<T>, n: nat, blockSize: nat, A: array<T>, B: array<T>, C: array<T>,
                              schedule: seq<(nat, nat)>) returns (ghost trace: seq<LaneStep>)
    requires Flat(n, A, B, C) && blockSize > 0 && blockSize % 4 == 0 && IsSchedule(schedule, n, blockSize)
    modifies C
    ensures forall x: nat, y: nat | x < n && y < n ::
      C[At(n, x, y)] == if y < Lanes(n) then FlatCell(ar, n, A, B, x, y, n) else ar.zero
    ensures n % 4 == 0 ==> FlatSummedTo(ar, n, A, B, C, 0, n, 0, n, n)
    ensures Leads(ar, n, A[..], B[..], Zeros(ar, n), trace, C[..]) && Interleaves(trace, n, blockSize)
  {
    Clear(ar, C);
    assert C[..] == Zeros(ar, n);
    TilesOnce(schedule, n, blockSize);
    trace := DoTiles(ar, n, blockSize, A, B, C, schedule);
    ScheduleInterleaves(trace, n, blockSize, schedule);
    forall x: nat, y: nat | x < n && y < n
      ensures C[At(n, x, y)] == if y < Lanes(n) then FlatCell(ar, n, A, B, x, y, n) else ar.zero
    {
      InterleavingsAgree(ar, n, blockSize, A[..], B[..], trace, x, y);
      SeqCellIsFlatCell(ar, n, A, B, x, y, n);
    }
    LanesOfFours(n);
  }

  lemma LanesOfFours(n: nat)
    ensures n % 4 == 0 ==> Lanes(n) == n
  {
  }

  /** The initial `memset`. */
  method Clear<T>(ar: Arithmetic<T>, C: array<T>)
    modifies C
    ensures forall c | 0 <= c < C.Length :: C[c] == ar.zero
  {
    for c := 0 to C.Length
      invariant forall d | 0 <= d < c :: C[d] == ar.zero
    {
      C[c] := ar.zero;
    }
  }

  /** The flat layout changes nothing about the sums. */
  lemma {:induction false} FlatCellIsCell<T>(ar: Arithmetic<T>, n: nat, A: array<T>, B: array<T>, A2: array2<T>,
                                             B2: array2<T>, i: nat, j: nat, k: nat)
    requires A.Length == B.Length == RowStart(n, n) && A2.Length0 == A2.Length1 == B2.Length0 == B2.Length1 == n
    requires forall x: nat, y: nat | x < n && y < n :: A[At(n, x, y)] == A2[x, y] && B[At(n, x, y)] == B2[x, y]
    requires i < n && j < n && k <= n
    ensures FlatCell(ar, n, A, B, i, j, k) == Cell(ar, A2, B2, i, j, k)
  {
    if k > 0 { FlatCellIsCell(ar, n, A, B, A2, B2, i, j, k - 1); }
  }

  // ---------------------------------------------------------------------------------------------
  // Tiles in parallel
  // ---------------------------------------------------------------------------------------------

  /** On one lane, the order of the loops is the order of the products. */
  lemma LaneOrder(trace: seq<LaneStep>, n: nat, blockSize: nat, p: nat, q: nat)
    requires blockSize > 0 && Interleaves(trace, n, blockSize) && p < q < |trace|
    requires trace[p].ii == trace[q].ii && trace[p].jj == trace[q].jj
    ensures trace[p].kk < trace[q].kk
  {
    assert SameTile(trace[p], trace[q], blockSize) && trace[p] != trace[q];
    if trace[p].kk >= trace[q].kk { OriginMonotone(trace[q].kk, trace[p].kk, blockSize); }
  }

  /** The products that the lane at (x, y) has got are the first `k`. */
  ghost predicate LaneHas(steps: seq<LaneStep>, n: nat, x: nat, y: nat, k: nat) {
    forall kk: nat | kk < n :: LaneStep(x, kk, y) in steps <==> kk < k
  }

  /** Smaller products of a lane come earlier. */
  lemma EarlierProduct(trace: seq<LaneStep>, n: nat, blockSize: nat, p: nat, kk: nat)
    requires blockSize > 0 && Interleaves(trace, n, blockSize) && p < |trace| && kk < trace[p].kk
    ensures LaneStep(trace[p].ii, kk, trace[p].jj) in trace[..p]
  {
    var earlier := LaneStep(trace[p].ii, kk, trace[p].jj);
    assert OnGrid(n, earlier);
    var q :| 0 <= q < |trace| && trace[q] == earlier;
    if p < q { LaneOrder(trace, n, blockSize, p, q); }
    assert trace[..p][q] == earlier;
  }

  /** The next step of a lane brings the next product. */
  lemma NextProduct(trace: seq<LaneStep>, n: nat, blockSize: nat, p: nat, k: nat)
    requires blockSize > 0 && Interleaves(trace, n, blockSize) && p < |trace|
    requires k <= n && LaneHas(trace[..p], n, trace[p].ii, trace[p].jj, k)
    ensures trace[p].kk == k
  {
    assert trace[p] !in trace[..p] && trace[p] == LaneStep(trace[p].ii, trace[p].kk, trace[p].jj);
    if k < trace[p].kk { EarlierProduct(trace, n, blockSize, p, k); }
  }

  lemma LaneGoesOn(trace: seq<LaneStep>, n: nat, blockSize: nat, p: nat, x: nat, y: nat, k: nat) returns (k': nat)
    requires blockSize > 0 && Interleaves(trace, n, blockSize) && p < |trace| && k <= n
    requires LaneHas(trace[..p], n, x, y, k)
    ensures LaneHas(trace[..p + 1], n, x, y, k')
    ensures if trace[p].ii == x && trace[p].jj == y then trace[p].kk == k < n && k' == k + 1 else k' == k
  {
    var step := trace[p];
    assert trace[..p + 1] == trace[..p] + [step];
    if step.ii == x && step.jj == y {
      NextProduct(trace, n, blockSize, p, k);
      k' := k + 1;
    } else {
      k' := k;
    }
  }

  /** The running sum of a cell, on values. */
  ghost function SeqCell<T>(ar: Arithmetic<T>, n: nat, A: seq<T>, B: seq<T>, i: nat, j: nat, k: nat): T
    requires |A| == |B| == RowStart(n, n) && i < n && j < n && k <= n
  {
    if k == 0 then ar.zero else ar.step(SeqCell(ar, n, A, B, i, j, k - 1), A[At(n, i, k - 1)], B[At(n, k - 1, j)])
  }

  lemma {:induction false} SeqCellIsFlatCell<T>(ar: Arithmetic<T>, n: nat, A: array<T>, B: array<T>, i: nat, j: nat,
                                                k: nat)
    requires A.Length == B.Length == RowStart(n, n) && i < n && j < n && k <= n
    ensures SeqCell(ar, n, A[..], B[..], i, j, k) == FlatCell(ar, n, A, B, i, j, k)
  {
    if k > 0 { SeqCellIsFlatCell(ar, n, A, B, i, j, k - 1); }
  }

  /** A step adds one product to each cell of its lane and changes no other cell. */
  lemma StepCell<T>(ar: Arithmetic<T>, n: nat, A: seq<T>, B: seq<T>, C: seq<T>, step: LaneStep, x: nat, y: nat)
    requires |A| == |B| == |C| == RowStart(n, n) && OnGrid(n, step) && x < n && y < n
    ensures AfterStep(ar, n, A, B, C, step)[At(n, x, y)] ==
      if x == step.ii && step.jj <= y < step.jj + 4
      then ar.step(C[At(n, x, y)], A[At(n, x, step.kk)], B[At(n, step.kk, y)]) else C[At(n, x, y)]
  {
    LaneCells(n, step.kk, step.jj);
    LaneCells(n, step.ii, step.jj);
  }

  lemma LaneFits(n: nat, y: nat)
    requires y < n
    ensures LaneOf(y) % 4 == 0 && (LaneOf(y) + 4 <= n <==> y < Lanes(n))
  {
    assert LaneOf(y) == 4 * (y / 4) && Lanes(n) == 4 * (n / 4);
  }

  /** The cell holds its running sum after `k` products. */
  ghost predicate CellAt<T>(ar: Arithmetic<T>, n: nat, A: seq<T>, B: seq<T>, C: seq<T>, x: nat, y: nat, k: nat) {
    && |A| == |B| == |C| == RowStart(n, n) && x < n && y < n && k <= n
    && C[At(n, x, y)] == SeqCell(ar, n, A, B, x, y, k)
  }

  /** A step of its lane takes the cell on to the next running sum, other steps leave it. */
  lemma NextSum<T>(ar: Arithmetic<T>, n: nat, A: seq<T>, B: seq<T>, C: seq<T>, step: LaneStep, x: nat, y: nat, k: nat,
                   k': nat)
    requires CellAt(ar, n, A, B, C, x, y, k) && OnGrid(n, step)
    requires if step.ii == x && step.jj <= y < step.jj + 4 then step.kk == k < n && k' == k + 1 else k' == k
    ensures CellAt(ar, n, A, B, AfterStep(ar, n, A, B, C, step), x, y, k')
  {
    StepCell(ar, n, A, B, C, step, x, y);
  }

  lemma ExecuteNext<T>(ar: Arithmetic<T>, n: nat, A: seq<T>, B: seq<T>, C: seq<T>, trace: seq<LaneStep>, p: nat)
    requires |A| == |B| == |C| == RowStart(n, n) && AllOnGrid(n, trace) && p < |trace|
    ensures AllOnGrid(n, trace[..p]) && AllOnGrid(n, trace[..p + 1])
    ensures Execute(ar, n, A, B, C, trace[..p + 1])
      == AfterStep(ar, n, A, B, Execute(ar, n, A, B, C, trace[..p]), trace[p])
  {
    assert trace[..p + 1][..p] == trace[..p];
  }

  /** However the tiles are interleaved, each cell goes through its running sums in order. */
  lemma {:induction false} CellAfter<T>(ar: Arithmetic<T>, n: nat, blockSize: nat, A: seq<T>, B: seq<T>,
                                        trace: seq<LaneStep>, p: nat, x: nat, y: nat) returns (k: nat)
    requires |A| == |B| == RowStart(n, n) && blockSize > 0 && Interleaves(trace, n, blockSize) && p <= |trace|
    requires x < n && y < n
    ensures AllOnGrid(n, trace[..p]) && LaneHas(trace[..p], n, x, LaneOf(y), k)
    ensures CellAt(ar, n, A, B, Execute(ar, n, A, B, Zeros(ar, n), trace[..p]), x, y, k)
  {
    if p == 0 {
      k := 0;
    } else {
      var k0 := CellAfter(ar, n, blockSize, A, B, trace, p - 1, x, y);
      k := LaneGoesOn(trace, n, blockSize, p - 1, x, LaneOf(y), k0);
      SameLane(trace[p - 1].jj, y);
      ExecuteNext(ar, n, A, B, Zeros(ar, n), trace, p - 1);
      NextSum(ar, n, A, B, Execute(ar, n, A, B, Zeros(ar, n), trace[..p - 1]), trace[p - 1], x, y, k0, k);
    }
  }

  function Zeros<T>(ar: Arithmetic<T>, n: nat): (C: seq<T>)
    ensures |C| == RowStart(n, n) && forall c | 0 <= c < |C| :: C[c] == ar.zero
  {
    seq(RowStart(n, n), _ => ar.zero)
  }

  lemma LaneComplete(trace: seq<LaneStep>, n: nat, blockSize: nat, x: nat, y: nat, k: nat)
    requires blockSize > 0 && Interleaves(trace, n, blockSize) && LaneHas(trace, n, x, LaneOf(y), k)
    requires x < n && y < n && k <= n
    ensures k == if y < Lanes(n) then n else 0
  {
    LaneFits(n, y);
    if y < Lanes(n) {
      if k < n { assert OnGrid(n, LaneStep(x, k, LaneOf(y))); }
    } else {
      assert !OnGrid(n, LaneStep(x, 0, LaneOf(y)));
      assert LaneStep(x, 0, LaneOf(y)) !in trace;
    }
  }

  /** Every interleaving of the tiles gives the sums of the plain loops in all columns that full lanes reach,
      and zero in the others. */
  lemma InterleavingsAgree<T>(ar: Arithmetic<T>, n: nat, blockSize: nat, A: seq<T>, B: seq<T>, trace: seq<LaneStep>,
                              x: nat, y: nat)
    requires |A| == |B| == RowStart(n, n) && blockSize > 0 && Interleaves(trace, n, blockSize) && x < n && y < n
    ensures Execute(ar, n, A, B, Zeros(ar, n), trace)[At(n, x, y)]
      == if y < Lanes(n) then SeqCell(ar, n, A, B, x, y, n) else ar.zero
  {
    var k := CellAfter(ar, n, blockSize, A, B, trace, |trace|, x, y);
    assert trace[..|trace|] == trace;
    LaneComplete(trace, n, blockSize, x, y, k);
  }
}
