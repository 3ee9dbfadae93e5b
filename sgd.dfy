/** The matrix-factorisation model both trainers share: latent vectors as
    values, the per-cell SGD update, the regularised error sums and the
    constants the two trainers use alike. */
module Sgd {
  import opened RatingData
  import opened LatentAlgebra

  const LearningRate: real := 0.01
  const Lambda: real := 0.01
  const MaxNumIteration: nat := 5000

  /** One latent vector per user (row) and per item (column). */
  datatype Factors = Factors(users: seq<seq<real>>, items: seq<seq<real>>)

  predicate CellIn(F: Factors, c: Cell)
  {
    c.user < |F.users| && c.item < |F.items|
  }

  /** One component of an SGD step: x moves along the prediction error err
      times its partner component y, less the L2 penalty on x. */
  function StepComponent(x: real, y: real, err: real): real
  {
    x + LearningRate * (err * y - Lambda * x)
  }

  /** The first n components of the SGD step of vector a against its partner
      b for the prediction error err. */
  function Step(a: seq<real>, b: seq<real>, err: real, n: nat): (r: seq<real>)
    requires n <= |a| && n <= |b|
    ensures |r| == n
  {
    if n == 0 then [] else Step(a, b, err, n - 1) + [StepComponent(a[n - 1], b[n - 1], err)]
  }

  /** A vector whose every component is the step's component is the step. */
  lemma {:induction false} StepFrom(a: seq<real>, b: seq<real>, err: real, n: nat, r: seq<real>)
    requires n <= |a| && n <= |b| && |r| == n
    requires forall f :: 0 <= f < n ==> r[f] == StepComponent(a[f], b[f], err)
    ensures r == Step(a, b, err, n)
  {
    if n > 0 {
      StepFrom(a, b, err, n - 1, r[..n - 1]);
      assert r == r[..n - 1] + [r[n - 1]];
    }
  }

  /** Cell c is rated in R and both of its vectors have k components. */
  predicate Fits(F: Factors, R: seq<seq<int>>, k: nat, c: Cell)
  {
    CellIn(F, c) && c.user < |R| && c.item < |R[c.user]| && |F.users[c.user]| == k && |F.items[c.item]| == k
  }

  /** The update of cell c: the prediction error is taken once, from the
      vectors as they were, and the user vector and the item vector both take
      one step with it (a cell whose vectors do not exist changes nothing;
      the trainers never update such a cell). */
  function ApplyUpdate(F: Factors, R: seq<seq<int>>, k: nat, c: Cell): (G: Factors)
    ensures |G.users| == |F.users| && |G.items| == |F.items|
  {
    if Fits(F, R, k, c) then
      var user := F.users[c.user];
      var item := F.items[c.item];
      var err := R[c.user][c.item] as real - Dot(user, item, k);
      Factors(F.users[c.user := Step(user, item, err, k)], F.items[c.item := Step(item, user, err, k)])
    else F
  }

  /** Component f of a step is StepComponent of the components f. */
  lemma {:induction false} StepAt(a: seq<real>, b: seq<real>, err: real, n: nat, f: nat)
    requires n <= |a| && n <= |b| && f < n
    ensures Step(a, b, err, n)[f] == StepComponent(a[f], b[f], err)
  {
    if f < n - 1 {
      StepAt(a, b, err, n - 1, f);
    }
  }

  /** The update of cell c changes user row c.user and item row c.item and no
      other row; each new component is one StepComponent, with both vectors
      and the error taken from before the update. */
  lemma ApplyUpdateChanges(F: Factors, R: seq<seq<int>>, k: nat, c: Cell)
    ensures forall p :: 0 <= p < |F.users| && p != c.user ==> ApplyUpdate(F, R, k, c).users[p] == F.users[p]
    ensures forall q :: 0 <= q < |F.items| && q != c.item ==> ApplyUpdate(F, R, k, c).items[q] == F.items[q]
    ensures !Fits(F, R, k, c) ==> ApplyUpdate(F, R, k, c) == F
    ensures Fits(F, R, k, c) ==>
      var err := R[c.user][c.item] as real - Dot(F.users[c.user], F.items[c.item], k);
      |ApplyUpdate(F, R, k, c).users[c.user]| == k && |ApplyUpdate(F, R, k, c).items[c.item]| == k &&
      forall f :: 0 <= f < k ==>
        ApplyUpdate(F, R, k, c).users[c.user][f] == StepComponent(F.users[c.user][f], F.items[c.item][f], err) &&
        ApplyUpdate(F, R, k, c).items[c.item][f] == StepComponent(F.items[c.item][f], F.users[c.user][f], err)
  {
    if Fits(F, R, k, c) {
      var err := R[c.user][c.item] as real - Dot(F.users[c.user], F.items[c.item], k);
      forall f | 0 <= f < k
        ensures ApplyUpdate(F, R, k, c).users[c.user][f] == StepComponent(F.users[c.user][f], F.items[c.item][f], err)
        ensures ApplyUpdate(F, R, k, c).items[c.item][f] == StepComponent(F.items[c.item][f], F.users[c.user][f], err)
      {
        StepAt(F.users[c.user], F.items[c.item], err, k, f);
        StepAt(F.items[c.item], F.users[c.user], err, k, f);
      }
    }
  }

  /** The updates of cs applied one after another, first to last. */
  function ApplyAll(F: Factors, R: seq<seq<int>>, k: nat, cs: seq<Cell>): (G: Factors)
    ensures |G.users| == |F.users| && |G.items| == |F.items|
  {
    ApplyFirst(F, R, k, cs, |cs|)
  }

  /** The updates of cs[..n], first to last. */
  function ApplyFirst(F: Factors, R: seq<seq<int>>, k: nat, cs: seq<Cell>, n: nat): (G: Factors)
    requires n <= |cs|
    ensures |G.users| == |F.users| && |G.items| == |F.items|
  {
    if n == 0 then F else ApplyUpdate(ApplyFirst(F, R, k, cs, n - 1), R, k, cs[n - 1])
  }

  /** Applying the first n cells reads only those cells. */
  lemma {:induction false} ApplyFirstAgree(F: Factors, R: seq<seq<int>>, k: nat, cs: seq<Cell>, ds: seq<Cell>, n: nat)
    requires n <= |cs| && n <= |ds|
    requires forall p :: 0 <= p < n ==> cs[p] == ds[p]
    ensures ApplyFirst(F, R, k, cs, n) == ApplyFirst(F, R, k, ds, n)
  {
    if n > 0 {
      ApplyFirstAgree(F, R, k, cs, ds, n - 1);
    }
  }

  lemma {:induction false} ApplyFirstAppend(F: Factors, R: seq<seq<int>>, k: nat, a: seq<Cell>, b: seq<Cell>, n: nat)
    requires n <= |b|
    ensures ApplyFirst(F, R, k, a + b, |a| + n) == ApplyFirst(ApplyAll(F, R, k, a), R, k, b, n)
  {
    if n == 0 {
      ApplyFirstAgree(F, R, k, a + b, a, |a|);
    } else {
      ApplyFirstAppend(F, R, k, a, b, n - 1);
      assert (a + b)[|a| + n - 1] == b[n - 1];
    }
  }

  /** Applying cs + [c] is applying cs, then the update of c. */
  lemma ApplyAllSnoc(F: Factors, R: seq<seq<int>>, k: nat, cs: seq<Cell>, c: Cell)
    ensures ApplyAll(F, R, k, cs + [c]) == ApplyUpdate(ApplyAll(F, R, k, cs), R, k, c)
  {
    ApplyFirstAgree(F, R, k, cs + [c], cs, |cs|);
  }

  /** A user row that no cell of cs[..n] belongs to keeps its vector. */
  lemma {:induction false} ApplyFirstKeepsUser(F: Factors, R: seq<seq<int>>, k: nat, cs: seq<Cell>, n: nat, u: nat)
    requires n <= |cs| && u < |F.users|
    requires forall p :: 0 <= p < n ==> cs[p].user != u
    ensures ApplyFirst(F, R, k, cs, n).users[u] == F.users[u]
  {
    if n > 0 {
      ApplyFirstKeepsUser(F, R, k, cs, n - 1, u);
      ApplyUpdateChanges(ApplyFirst(F, R, k, cs, n - 1), R, k, cs[n - 1]);
    }
  }

  /** An item column that no cell of cs[..n] belongs to keeps its vector. */
  lemma {:induction false} ApplyFirstKeepsItem(F: Factors, R: seq<seq<int>>, k: nat, cs: seq<Cell>, n: nat, q: nat)
    requires n <= |cs| && q < |F.items|
    requires forall p :: 0 <= p < n ==> cs[p].item != q
    ensures ApplyFirst(F, R, k, cs, n).items[q] == F.items[q]
  {
    if n > 0 {
      ApplyFirstKeepsItem(F, R, k, cs, n - 1, q);
      ApplyUpdateChanges(ApplyFirst(F, R, k, cs, n - 1), R, k, cs[n - 1]);
    }
  }

  /** Applying cs changes only the user rows and item columns of its cells. */
  lemma ApplyAllKeeps(F: Factors, R: seq<seq<int>>, k: nat, cs: seq<Cell>)
    ensures forall u :: 0 <= u < |F.users| && (forall c :: c in cs ==> c.user != u) ==> ApplyAll(F, R, k, cs).users[u] == F.users[u]
    ensures forall q :: 0 <= q < |F.items| && (forall c :: c in cs ==> c.item != q) ==> ApplyAll(F, R, k, cs).items[q] == F.items[q]
  {
    forall u | 0 <= u < |F.users| && (forall c :: c in cs ==> c.user != u)
      ensures ApplyAll(F, R, k, cs).users[u] == F.users[u]
    {
      ApplyFirstKeepsUser(F, R, k, cs, |cs|, u);
    }
    forall q | 0 <= q < |F.items| && (forall c :: c in cs ==> c.item != q)
      ensures ApplyAll(F, R, k, cs).items[q] == F.items[q]
    {
      ApplyFirstKeepsItem(F, R, k, cs, |cs|, q);
    }
  }

  /** Applying a + b is applying a, then b. */
  lemma ApplyAllAppend(F: Factors, R: seq<seq<int>>, k: nat, a: seq<Cell>, b: seq<Cell>)
    ensures ApplyAll(F, R, k, a + b) == ApplyAll(ApplyAll(F, R, k, a), R, k, b)
  {
    ApplyFirstAppend(F, R, k, a, b, |b|);
  }

  /** ApplyAllAppend, chained: applying a reaches G and applying b from G reaches H. */
  lemma ApplyAllThen(F: Factors, R: seq<seq<int>>, k: nat, a: seq<Cell>, b: seq<Cell>, G: Factors, H: Factors)
    requires G == ApplyAll(F, R, k, a) && H == ApplyAll(G, R, k, b)
    ensures H == ApplyAll(F, R, k, a + b)
  {
    ApplyAllAppend(F, R, k, a, b);
  }

  /** Which item vector's norm the penalty of cell (i, j) charges: the item
      of the cell, or item i (the item vector at the user's index). */
  datatype NormIndex = ItemOfCell | ItemOfUser

  function NormItem(ix: NormIndex, c: Cell): nat
  {
    match ix
    case ItemOfCell => c.item
    case ItemOfUser => c.user
  }

  predicate Chargeable(F: Factors, ix: NormIndex, c: Cell)
  {
    CellIn(F, c) && NormItem(ix, c) < |F.items|
  }

  /** Squared prediction error of cell c plus the L2 penalty of its vectors
      (0 for a cell whose vectors do not exist; the trainers never sum such a cell). */
  function CellError(F: Factors, R: seq<seq<int>>, k: nat, ix: NormIndex, c: Cell): real
  {
    if c.user < |R| && c.item < |R[c.user]| && Chargeable(F, ix, c)
       && k <= |F.users[c.user]| && k <= |F.items[c.item]|
    then
      var diff := R[c.user][c.item] as real - Dot(F.users[c.user], F.items[c.item], k);
      Square(diff) + Lambda * (NormSqr(F.users[c.user]) + NormSqr(F.items[NormItem(ix, c)]))
    else 0.0
  }

  /** Error of the observed cells (i, c) with c < j. */
  function RowError(F: Factors, R: seq<seq<int>>, k: nat, ix: NormIndex, i: nat, j: nat): real
  {
    if j == 0 then 0.0
    else RowError(F, R, k, ix, i, j - 1) + (if Observed(R, Cell(i, j - 1)) then CellError(F, R, k, ix, Cell(i, j - 1)) else 0.0)
  }

  /** One more column of RowError: an observed, chargeable cell adds its
      error, computed from the rating, the prediction and the two norms. */
  lemma RowErrorNext(F: Factors, R: seq<seq<int>>, k: nat, ix: NormIndex, i: nat, j: nat,
                     rating: real, predicted: real, userLength: real, itemLength: real)
    requires Observed(R, Cell(i, j)) && Chargeable(F, ix, Cell(i, j)) && k <= |F.users[i]| && k <= |F.items[j]|
    requires rating == R[i][j] as real && predicted == Dot(F.users[i], F.items[j], k)
    requires userLength == NormSqr(F.users[i]) && itemLength == NormSqr(F.items[NormItem(ix, Cell(i, j))])
    ensures RowError(F, R, k, ix, i, j + 1) == RowError(F, R, k, ix, i, j) + (Square(rating - predicted) + Lambda * (userLength + itemLength))
  {
  }

  /** Error of the observed cells of rows 0..i-1, one column per item vector. */
  function GridError(F: Factors, R: seq<seq<int>>, k: nat, ix: NormIndex, i: nat): real
  {
    if i == 0 then 0.0 else GridError(F, R, k, ix, i - 1) + RowError(F, R, k, ix, i - 1, |F.items|)
  }

  /** Regularised squared error summed over every observed cell. */
  function TotalError(F: Factors, R: seq<seq<int>>, k: nat, ix: NormIndex): real
  {
    GridError(F, R, k, ix, |R|)
  }

  /** Sum of CellError over a list of cells. */
  function ErrorOver(F: Factors, R: seq<seq<int>>, k: nat, ix: NormIndex, cs: seq<Cell>): real
  {
    ErrorOverFirst(F, R, k, ix, cs, |cs|)
  }

  /** Sum of CellError over cs[..n]. */
  function ErrorOverFirst(F: Factors, R: seq<seq<int>>, k: nat, ix: NormIndex, cs: seq<Cell>, n: nat): real
    requires n <= |cs|
  {
    if n == 0 then 0.0 else ErrorOverFirst(F, R, k, ix, cs, n - 1) + CellError(F, R, k, ix, cs[n - 1])
  }

  lemma {:induction false} ErrorOverFirstAppend(F: Factors, R: seq<seq<int>>, k: nat, ix: NormIndex, a: seq<Cell>, b: seq<Cell>, n: nat)
    requires n <= |b|
    ensures ErrorOverFirst(F, R, k, ix, a + b, |a| + n) == ErrorOverFirst(F, R, k, ix, a, |a|) + ErrorOverFirst(F, R, k, ix, b, n)
  {
    if n == 0 {
      ErrorOverFirstAgree(F, R, k, ix, a + b, a, |a|);
    } else {
      ErrorOverFirstAppend(F, R, k, ix, a, b, n - 1);
      assert (a + b)[|a| + n - 1] == b[n - 1];
    }
  }

  /** The sum over the first n cells reads only those cells. */
  lemma {:induction false} ErrorOverFirstAgree(F: Factors, R: seq<seq<int>>, k: nat, ix: NormIndex, cs: seq<Cell>, ds: seq<Cell>, n: nat)
    requires n <= |cs| && n <= |ds|
    requires forall p :: 0 <= p < n ==> cs[p] == ds[p]
    ensures ErrorOverFirst(F, R, k, ix, cs, n) == ErrorOverFirst(F, R, k, ix, ds, n)
  {
    if n > 0 {
      ErrorOverFirstAgree(F, R, k, ix, cs, ds, n - 1);
    }
  }

  lemma ErrorOverAppend(F: Factors, R: seq<seq<int>>, k: nat, ix: NormIndex, a: seq<Cell>, b: seq<Cell>)
    ensures ErrorOver(F, R, k, ix, a + b) == ErrorOver(F, R, k, ix, a) + ErrorOver(F, R, k, ix, b)
  {
    ErrorOverFirstAppend(F, R, k, ix, a, b, |b|);
  }

  lemma {:induction false} RowErrorOverCells(F: Factors, R: seq<seq<int>>, k: nat, ix: NormIndex, i: nat, j: nat)
    ensures RowError(F, R, k, ix, i, j) == ErrorOver(F, R, k, ix, RowCells(R, i, j))
  {
    if j > 0 {
      RowErrorOverCells(F, R, k, ix, i, j - 1);
      var prev := RowCells(R, i, j - 1);
      if Observed(R, Cell(i, j - 1)) {
        ErrorOverAppend(F, R, k, ix, prev, [Cell(i, j - 1)]);
        assert RowCells(R, i, j) == prev + [Cell(i, j - 1)];
        assert ErrorOverFirst(F, R, k, ix, [Cell(i, j - 1)], 1) == CellError(F, R, k, ix, Cell(i, j - 1));
      } else {
        assert RowCells(R, i, j) == prev;
      }
    }
  }

  lemma {:induction false} GridErrorOverCells(F: Factors, R: seq<seq<int>>, k: nat, ix: NormIndex, i: nat)
    ensures GridError(F, R, k, ix, i) == ErrorOver(F, R, k, ix, GridCells(R, |F.items|, i))
  {
    if i > 0 {
      GridErrorOverCells(F, R, k, ix, i - 1);
      RowErrorOverCells(F, R, k, ix, i - 1, |F.items|);
      ErrorOverAppend(F, R, k, ix, GridCells(R, |F.items|, i - 1), RowCells(R, i - 1, |F.items|));
    }
  }

  /** The total error is the sum of CellError over exactly the observed cells,
      in row-major order: unobserved cells contribute nothing. */
  lemma TotalErrorOverObserved(F: Factors, R: seq<seq<int>>, k: nat, ix: NormIndex)
    requires IsGrid(R, |F.items|)
    ensures TotalError(F, R, k, ix) == ErrorOver(F, R, k, ix, ObservedCells(R, |F.items|))
    ensures forall c :: c in ObservedCells(R, |F.items|) <==> Observed(R, c)
  {
    GridErrorOverCells(F, R, k, ix, |R|);
    ObservedCellsExact(R, |F.items|);
  }

  lemma CellErrorNonNegative(F: Factors, R: seq<seq<int>>, k: nat, ix: NormIndex, c: Cell)
    ensures CellError(F, R, k, ix, c) >= 0.0
  {
    if c.user < |R| && c.item < |R[c.user]| && Chargeable(F, ix, c)
       && k <= |F.users[c.user]| && k <= |F.items[c.item]|
    {
      var diff := R[c.user][c.item] as real - Dot(F.users[c.user], F.items[c.item], k);
      SquareNonNegative(diff);
      NormSqrIsSelfDot(F.users[c.user]);
      NormSqrIsSelfDot(F.items[NormItem(ix, c)]);
    }
  }

  lemma {:induction false} ErrorOverFirstNonNegative(F: Factors, R: seq<seq<int>>, k: nat, ix: NormIndex, cs: seq<Cell>, n: nat)
    requires n <= |cs|
    ensures ErrorOverFirst(F, R, k, ix, cs, n) >= 0.0
  {
    if n > 0 {
      ErrorOverFirstNonNegative(F, R, k, ix, cs, n - 1);
      CellErrorNonNegative(F, R, k, ix, cs[n - 1]);
    }
  }

  /** Every term is at least 0 (Lambda is positive), so the total error is too. */
  lemma TotalErrorNonNegative(F: Factors, R: seq<seq<int>>, k: nat, ix: NormIndex)
    ensures TotalError(F, R, k, ix) >= 0.0
  {
    GridErrorOverCells(F, R, k, ix, |R|);
    ErrorOverFirstNonNegative(F, R, k, ix, ObservedCells(R, |F.items|), |ObservedCells(R, |F.items|)|);
  }

  /** Where a training run ends: the final vectors and how many epochs ran. */
  datatype Run = Run(factors: Factors, epochs: nat)

  /** A double that is either an ordinary value or NaN (what 0.0 / 0 gives). */
  datatype Ratio = Defined(value: real) | NaN

  /** `x < bound` with Java's semantics: every comparison with NaN is false. */
  predicate Below(x: Ratio, bound: real)
  {
    x.Defined? && x.value < bound
  }

  /** The regularised error over the observed cells divided by twice their number. */
  function MeanSquareError(F: Factors, R: seq<seq<int>>, k: nat): Ratio
  {
    var count := ObservedCount(R, |F.items|);
    if count == 0 then NaN else Defined(TotalError(F, R, k, ItemOfCell) / (2 * count) as real)
  }

  /** The mean is defined exactly when some cell is observed, and is then at least 0. */
  lemma MeanSquareErrorDefined(F: Factors, R: seq<seq<int>>, k: nat)
    requires IsGrid(R, |F.items|)
    ensures MeanSquareError(F, R, k).Defined? <==> exists c :: Observed(R, c)
    ensures MeanSquareError(F, R, k).Defined? ==> MeanSquareError(F, R, k).value >= 0.0
  {
    ObservedCountZero(R, |F.items|);
    TotalErrorNonNegative(F, R, k, ItemOfCell);
  }
}
