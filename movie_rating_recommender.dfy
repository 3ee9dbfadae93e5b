/** The older trainer, MovieRatingRecommender: ratings read as triples with
    ids filtered to 1..10, an error check after every single update whose
    `break` leaves only the item loop of the current user, and a penalty
    that charges the item vector at the user's index. */
module Recommender {
  import opened RatingData
  import opened LatentAlgebra
  import opened Sgd
  import opened Views
  import opened LatentMatrices

  const AcceptedSquareError: real := 1.0

  /** The loader keeps a triple only when both ids lie in 1..10. */
  const IdFilter: IdPolicy := RangeFilter(10)

  /** Where the item loop over one user row ends: the vectors, the cells
      updated in order, and whether the accepted-error `break` was taken. */
  datatype RowOutcome = RowOutcome(factors: Factors, visited: seq<Cell>, stopped: bool)

  /** Where one epoch (the nested user and item loops) ends. */
  datatype EpochOutcome = EpochOutcome(factors: Factors, visited: seq<Cell>)

  /** The error check after an update: the total error, with the penalty
      charging the item vector at the user's index, is below AcceptedSquareError. */
  predicate Accepted(G: Factors, R: seq<seq<int>>, k: nat)
  {
    TotalError(G, R, k, ItemOfUser) < AcceptedSquareError
  }

  /** The error check as a test on the vectors alone, for the ratings R. */
  function AcceptTest(R: seq<seq<int>>, k: nat): Factors -> bool
  {
    G => Accepted(G, R, k)
  }

  /** The item loop of row i run over columns 0..j-1: each observed cell is
      updated and followed by the check `accept`; the first update it passes
      ends the row. The trainer's check is AcceptTest; the sweep and its
      lemmas hold for any check. */
  function RowSweep(F: Factors, R: seq<seq<int>>, k: nat, accept: Factors -> bool, i: nat, j: nat): (o: RowOutcome)
    ensures |o.factors.users| == |F.users| && |o.factors.items| == |F.items|
  {
    if j == 0 then RowOutcome(F, [], false)
    else
      var prev := RowSweep(F, R, k, accept, i, j - 1);
      if prev.stopped || !Observed(R, Cell(i, j - 1)) then prev
      else
        var G := ApplyUpdate(prev.factors, R, k, Cell(i, j - 1));
        RowOutcome(G, prev.visited + [Cell(i, j - 1)], accept(G))
  }

  /** Rows 0..i-1 of one epoch, each row's item loop starting where the previous row left off. */
  function EpochSweep(F: Factors, R: seq<seq<int>>, k: nat, accept: Factors -> bool, i: nat): (e: EpochOutcome)
    ensures |e.factors.users| == |F.users| && |e.factors.items| == |F.items|
  {
    if i == 0 then EpochOutcome(F, [])
    else
      var prev := EpochSweep(F, R, k, accept, i - 1);
      var row := RowSweep(prev.factors, R, k, accept, i - 1, |F.items|);
      EpochOutcome(row.factors, prev.visited + row.visited)
  }

  lemma EpochSweepStep(F: Factors, R: seq<seq<int>>, k: nat, accept: Factors -> bool, i: nat)
    ensures EpochSweep(F, R, k, accept, i + 1).factors == RowSweep(EpochSweep(F, R, k, accept, i).factors, R, k, accept, i, |F.items|).factors
  {
  }

  /** n epochs in a row. */
  function Epochs(F: Factors, R: seq<seq<int>>, k: nat, accept: Factors -> bool, n: nat): (G: Factors)
    decreases n
  {
    if n == 0 then F else Epochs(EpochSweep(F, R, k, accept, |R|).factors, R, k, accept, n - 1)
  }

  /** The epoch loop from iteration counter `it` on: after each epoch the
      only exit is the counter reaching MaxNumIteration. */
  function TrainFrom(F: Factors, R: seq<seq<int>>, k: nat, accept: Factors -> bool, it: nat): Run
    requires it <= MaxNumIteration
    decreases MaxNumIteration - it
  {
    var G := EpochSweep(F, R, k, accept, |R|).factors;
    if it == MaxNumIteration then Run(G, it + 1) else TrainFrom(G, R, k, accept, it + 1)
  }

  /** One turn of the epoch loop: an epoch, then the exit test. */
  lemma TrainFromStep(F: Factors, R: seq<seq<int>>, k: nat, accept: Factors -> bool, it: nat)
    requires it <= MaxNumIteration
    ensures var G := EpochSweep(F, R, k, accept, |R|).factors;
            TrainFrom(F, R, k, accept, it) == if it == MaxNumIteration then Run(G, it + 1) else TrainFrom(G, R, k, accept, it + 1)
  {
  }

  /** Once the row loop has taken its `break`, later columns change nothing. */
  lemma {:induction false} RowSweepStaysStopped(F: Factors, R: seq<seq<int>>, k: nat, accept: Factors -> bool, i: nat, j: nat, j': nat)
    requires j <= j'
    requires RowSweep(F, R, k, accept, i, j).stopped
    ensures RowSweep(F, R, k, accept, i, j') == RowSweep(F, R, k, accept, i, j)
  {
    if j' > j {
      RowSweepStaysStopped(F, R, k, accept, i, j, j' - 1);
    }
  }

  /** The item loop of a row updates a prefix of the row's observed cells, in
      column order, and all of them unless it took the `break`. */
  lemma {:induction false} RowSweepVisits(F: Factors, R: seq<seq<int>>, k: nat, accept: Factors -> bool, i: nat, j: nat)
    ensures |RowSweep(F, R, k, accept, i, j).visited| <= |RowCells(R, i, j)|
    ensures RowSweep(F, R, k, accept, i, j).visited == RowCells(R, i, j)[..|RowSweep(F, R, k, accept, i, j).visited|]
    ensures !RowSweep(F, R, k, accept, i, j).stopped ==> RowSweep(F, R, k, accept, i, j).visited == RowCells(R, i, j)
  {
    if j > 0 {
      RowSweepVisits(F, R, k, accept, i, j - 1);
      var prev := RowSweep(F, R, k, accept, i, j - 1);
      var cells := RowCells(R, i, j - 1);
      if Observed(R, Cell(i, j - 1)) {
        assert RowCells(R, i, j) == cells + [Cell(i, j - 1)];
        if prev.stopped {
          assert cells[..|prev.visited|] == (cells + [Cell(i, j - 1)])[..|prev.visited|];
        }
      } else {
        assert RowCells(R, i, j) == cells;
      }
    }
  }

  /** When the `break` fires: a row stops only after an update, exactly when
      the check passes on the vectors that update left, and the check failed
      after every earlier update of the row. */
  lemma {:induction false} RowSweepBreak(F: Factors, R: seq<seq<int>>, k: nat, accept: Factors -> bool, i: nat, j: nat)
    ensures RowSweep(F, R, k, accept, i, j).stopped ==> |RowSweep(F, R, k, accept, i, j).visited| > 0
    ensures |RowSweep(F, R, k, accept, i, j).visited| > 0 ==>
              (RowSweep(F, R, k, accept, i, j).stopped <==> accept(RowSweep(F, R, k, accept, i, j).factors))
    ensures forall n :: 0 < n < |RowSweep(F, R, k, accept, i, j).visited| ==>
              !accept(ApplyAll(F, R, k, RowSweep(F, R, k, accept, i, j).visited[..n]))
  {
    if j > 0 {
      RowSweepBreak(F, R, k, accept, i, j - 1);
      var prev := RowSweep(F, R, k, accept, i, j - 1);
      if !prev.stopped && Observed(R, Cell(i, j - 1)) {
        var o := RowSweep(F, R, k, accept, i, j);
        assert o.visited == prev.visited + [Cell(i, j - 1)];
        RowSweepApplies(F, R, k, accept, i, j - 1);
        forall n | 0 < n < |o.visited|
          ensures !accept(ApplyAll(F, R, k, o.visited[..n]))
        {
          if n < |prev.visited| {
            assert o.visited[..n] == prev.visited[..n];
          } else {
            assert o.visited[..n] == prev.visited;
          }
        }
      }
    }
  }

  /** What the item loop leaves is the updates of the cells it visited, applied in order. */
  lemma {:induction false} RowSweepApplies(F: Factors, R: seq<seq<int>>, k: nat, accept: Factors -> bool, i: nat, j: nat)
    ensures RowSweep(F, R, k, accept, i, j).factors == ApplyAll(F, R, k, RowSweep(F, R, k, accept, i, j).visited)
  {
    if j > 0 {
      RowSweepApplies(F, R, k, accept, i, j - 1);
      var prev := RowSweep(F, R, k, accept, i, j - 1);
      if !prev.stopped && Observed(R, Cell(i, j - 1)) {
        ApplyAllAppend(F, R, k, prev.visited, [Cell(i, j - 1)]);
        assert ApplyFirst(prev.factors, R, k, [Cell(i, j - 1)], 1) == ApplyUpdate(prev.factors, R, k, Cell(i, j - 1));
      }
    }
  }

  /** One epoch updates only observed cells (the ensures of EpochSweep), and
      strictly in row-major order. */
  lemma {:induction false} EpochSweepOrder(F: Factors, R: seq<seq<int>>, k: nat, accept: Factors -> bool, i: nat)
    ensures StrictlyRowMajor(EpochSweep(F, R, k, accept, i).visited)
  {
    if i > 0 {
      EpochSweepOrder(F, R, k, accept, i - 1);
      var prev := EpochSweep(F, R, k, accept, i - 1);
      var row := RowSweep(prev.factors, R, k, accept, i - 1, |F.items|);
      assert EpochSweep(F, R, k, accept, i).visited == prev.visited + row.visited;
      RowSweepOrder(prev.factors, R, k, accept, i - 1, |F.items|);
      EpochSweepObserved(F, R, k, accept, i - 1);
      RowSweepObserved(prev.factors, R, k, accept, i - 1, |F.items|);
      assert forall c :: c in prev.visited ==> c.user < i - 1;
      assert forall d :: d in row.visited ==> d.user == i - 1;
      StrictlyRowMajorAppend(prev.visited, row.visited);
    }
  }

  /** One epoch updates only observed cells, of the rows it has swept. */
  lemma {:induction false} EpochSweepObserved(F: Factors, R: seq<seq<int>>, k: nat, accept: Factors -> bool, i: nat)
    ensures forall c :: c in EpochSweep(F, R, k, accept, i).visited ==> Observed(R, c) && c.user < i
  {
    if i > 0 {
      EpochSweepObserved(F, R, k, accept, i - 1);
      var prev := EpochSweep(F, R, k, accept, i - 1);
      var row := RowSweep(prev.factors, R, k, accept, i - 1, |F.items|);
      RowSweepObserved(prev.factors, R, k, accept, i - 1, |F.items|);
      assert EpochSweep(F, R, k, accept, i).visited == prev.visited + row.visited;
    }
  }

  /** One row's item loop updates only observed cells of that row. */
  lemma RowSweepObserved(F: Factors, R: seq<seq<int>>, k: nat, accept: Factors -> bool, i: nat, j: nat)
    ensures forall c :: c in RowSweep(F, R, k, accept, i, j).visited ==> Observed(R, c) && c.user == i && c.item < j
  {
    RowSweepVisits(F, R, k, accept, i, j);
    RowCellsExact(R, i, j);
    var o := RowSweep(F, R, k, accept, i, j);
    forall c | c in o.visited
      ensures c in RowCells(R, i, j)
    {
      var p :| 0 <= p < |o.visited| && o.visited[p] == c;
      assert RowCells(R, i, j)[p] == c;
    }
  }

  /** The cells of one row's item loop are in strictly increasing column order. */
  lemma RowSweepOrder(F: Factors, R: seq<seq<int>>, k: nat, accept: Factors -> bool, i: nat, j: nat)
    ensures StrictlyRowMajor(RowSweep(F, R, k, accept, i, j).visited)
  {
    RowSweepVisits(F, R, k, accept, i, j);
    RowCellsExact(R, i, j);
    StrictlyRowMajorPrefix(RowCells(R, i, j), |RowSweep(F, R, k, accept, i, j).visited|);
  }

  /** The vectors one epoch leaves are the updates of the cells it visited,
      applied one after another. */
  lemma {:induction false} EpochSweepApplies(F: Factors, R: seq<seq<int>>, k: nat, accept: Factors -> bool, i: nat)
    ensures EpochSweep(F, R, k, accept, i).factors == ApplyAll(F, R, k, EpochSweep(F, R, k, accept, i).visited)
  {
    if i > 0 {
      EpochSweepApplies(F, R, k, accept, i - 1);
      var prev := EpochSweep(F, R, k, accept, i - 1);
      var row := RowSweep(prev.factors, R, k, accept, i - 1, |F.items|);
      RowSweepApplies(prev.factors, R, k, accept, i - 1, |F.items|);
      ApplyAllThen(F, R, k, prev.visited, row.visited, prev.factors, row.factors);
      assert EpochSweep(F, R, k, accept, i) == EpochOutcome(row.factors, prev.visited + row.visited);
    }
  }

  /** Training always runs every epoch: the accepted-error `break` leaves only
      the item loop, so the run ends with the counter at MaxNumIteration
      after MaxNumIteration + 1 epochs. */
  lemma {:induction false} TrainRunsAllEpochs(F: Factors, R: seq<seq<int>>, k: nat, accept: Factors -> bool, it: nat)
    requires it <= MaxNumIteration
    ensures TrainFrom(F, R, k, accept, it) == Run(Epochs(F, R, k, accept, MaxNumIteration + 1 - it), MaxNumIteration + 1)
    decreases MaxNumIteration - it
  {
    if it < MaxNumIteration {
      TrainRunsAllEpochs(EpochSweep(F, R, k, accept, |R|).factors, R, k, accept, it + 1);
    }
  }

  /** The penalty of cell (i, j) charges item vector i, not item vector j:
      with one rating 5 at user 0, item 1, and item vector 0 the only
      non-zero vector, the sum charges that vector's norm although item 0 has
      no rating, where charging the cell's own item would add nothing. */
  lemma PenaltyChargesUserIndexedItem()
    ensures var F := Factors([[0.0], [0.0]], [[1.0], [0.0]]);
            var R := [[0, 5], [0, 0]];
            TotalError(F, R, 1, ItemOfUser) == 25.01 && TotalError(F, R, 1, ItemOfCell) == 25.0
  {
    var F := Factors([[0.0], [0.0]], [[1.0], [0.0]]);
    var R := [[0, 5], [0, 0]];
    assert NormSqr(F.items[0]) == 1.0 && NormSqr(F.items[1]) == 0.0 && NormSqr(F.users[0]) == 0.0;
    assert Dot(F.users[0], F.items[1], 1) == 0.0;
    assert RowError(F, R, 1, ItemOfUser, 1, 2) == 0.0 && RowError(F, R, 1, ItemOfCell, 1, 2) == 0.0;
  }

  class MovieRatingRecommender {
    const numLatentFeature: nat
    const numUsers: nat
    const numItems: nat

    const data: array2<int>
    const usersLatentFeatureVector: array2<real>
    const itemsLatentFeatureVector: array2<real>

    /** The shapes the constructor sets up. */
    ghost predicate Valid()
    {
      data.Length0 == numUsers && data.Length1 == numItems &&
      usersLatentFeatureVector.Length0 == numUsers && usersLatentFeatureVector.Length1 == numLatentFeature &&
      itemsLatentFeatureVector.Length0 == numItems && itemsLatentFeatureVector.Length1 == numLatentFeature &&
      usersLatentFeatureVector != itemsLatentFeatureVector
    }

    ghost function Ratings(): seq<seq<int>>
      reads data
    {
      Grid(data)
    }

    ghost function Latent(): (F: Factors)
      reads usersLatentFeatureVector, itemsLatentFeatureVector
    {
      Factors(Grid(usersLatentFeatureVector), Grid(itemsLatentFeatureVector))
    }

    /** The penalty of cell (i, j) reads item vector i, so each user row that
        holds a rating needs an item vector at its own index. */
    ghost predicate UserIndexedItemsExist()
      reads data
    {
      forall i, j :: 0 <= i < data.Length0 && 0 <= j < data.Length1 && data[i, j] > 0 ==> i < numItems
    }

    /** Allocates the rating matrix and both latent matrices, all zero. */
    constructor (numLatentFeature: nat, numUsers: nat, numItems: nat)
      ensures Valid()
      ensures this.numLatentFeature == numLatentFeature && this.numUsers == numUsers && this.numItems == numItems
      ensures fresh(data) && fresh(usersLatentFeatureVector) && fresh(itemsLatentFeatureVector)
      ensures forall a, b :: 0 <= a < numUsers && 0 <= b < numItems ==> data[a, b] == 0
      ensures forall u, f :: 0 <= u < numUsers && 0 <= f < numLatentFeature ==> usersLatentFeatureVector[u, f] == 0.0
      ensures forall j, f :: 0 <= j < numItems && 0 <= f < numLatentFeature ==> itemsLatentFeatureVector[j, f] == 0.0
    {
      this.numLatentFeature := numLatentFeature;
      this.data := new int[numUsers, numItems]((_, _) => 0);
      this.numUsers := numUsers;
      this.numItems := numItems;
      this.usersLatentFeatureVector := new real[numUsers, numLatentFeature]((_, _) => 0.0);
      this.itemsLatentFeatureVector := new real[numItems, numLatentFeature]((_, _) => 0.0);
    }

    /** Writes rating r at (user - 1, item - 1) for every triple whose ids both
        lie in 1..10, in order; other triples are skipped. */
    method LoadTrainingData(triples: seq<Triple>)
      requires Valid()
      requires forall t :: t in triples && Admits(IdFilter, t) ==> InShape(t, numUsers, numItems)
      modifies data
      ensures forall a, b :: 0 <= a < numUsers && 0 <= b < numItems ==>
                data[a, b] == LastWrite(triples, |triples|, IdFilter, a, b, old(data[a, b]))
    {
      for n := 0 to |triples|
        invariant forall a, b :: 0 <= a < numUsers && 0 <= b < numItems ==>
                    data[a, b] == LastWrite(triples, n, IdFilter, a, b, old(data[a, b]))
      {
        var user := triples[n].user;
        var item := triples[n].item;
        var rating := triples[n].rating;
        if 1 <= user && user <= 10 && 1 <= item && item <= 10 {
          assert InShape(triples[n], numUsers, numItems);
          data[user - 1, item - 1] := rating;
        }
      }
    }

    /** Fills both latent matrices (the source draws each value at random). */
    method InitializeLatentFeatureVectors(initialUsers: seq<seq<real>>, initialItems: seq<seq<real>>)
      requires Valid()
      requires |initialUsers| == numUsers && forall u :: 0 <= u < numUsers ==> |initialUsers[u]| == numLatentFeature
      requires |initialItems| == numItems && forall j :: 0 <= j < numItems ==> |initialItems[j]| == numLatentFeature
      modifies usersLatentFeatureVector, itemsLatentFeatureVector
      ensures Latent() == Factors(initialUsers, initialItems)
    {
      for i := 0 to numUsers
        invariant forall p, f :: 0 <= p < i && 0 <= f < numLatentFeature ==> usersLatentFeatureVector[p, f] == initialUsers[p][f]
      {
        for j := 0 to numLatentFeature
          invariant forall p, f :: 0 <= p < i && 0 <= f < numLatentFeature ==> usersLatentFeatureVector[p, f] == initialUsers[p][f]
          invariant forall f :: 0 <= f < j ==> usersLatentFeatureVector[i, f] == initialUsers[i][f]
        {
          usersLatentFeatureVector[i, j] := initialUsers[i][j];
        }
      }
      for i := 0 to numItems
        invariant forall p, f :: 0 <= p < numUsers && 0 <= f < numLatentFeature ==> usersLatentFeatureVector[p, f] == initialUsers[p][f]
        invariant forall p, f :: 0 <= p < i && 0 <= f < numLatentFeature ==> itemsLatentFeatureVector[p, f] == initialItems[p][f]
      {
        for j := 0 to numLatentFeature
          invariant forall p, f :: 0 <= p < numUsers && 0 <= f < numLatentFeature ==> usersLatentFeatureVector[p, f] == initialUsers[p][f]
          invariant forall p, f :: 0 <= p < i && 0 <= f < numLatentFeature ==> itemsLatentFeatureVector[p, f] == initialItems[p][f]
          invariant forall f :: 0 <= f < j ==> itemsLatentFeatureVector[i, f] == initialItems[i][f]
        {
          itemsLatentFeatureVector[i, j] := initialItems[i][j];
        }
      }
      assert forall p :: 0 <= p < numUsers ==> Row(usersLatentFeatureVector, p) == initialUsers[p];
      assert forall p :: 0 <= p < numItems ==> Row(itemsLatentFeatureVector, p) == initialItems[p];
    }

    /** The epoch loop: MaxNumIteration + 1 epochs, whatever the error does. */
    method TrainMatrixFactorization() returns (epochs: nat)
      requires Valid() && UserIndexedItemsExist()
      modifies usersLatentFeatureVector, itemsLatentFeatureVector
      ensures Run(Latent(), epochs) == TrainFrom(old(Latent()), Ratings(), numLatentFeature, AcceptTest(Ratings(), numLatentFeature), 0)
      ensures epochs == MaxNumIteration + 1
    {
      ghost var R := Ratings();
      ghost var accept := AcceptTest(R, numLatentFeature);
      ghost var goal := TrainFrom(Latent(), R, numLatentFeature, accept, 0);
      var numIteration: nat := 0;
      while true
        invariant numIteration <= MaxNumIteration
        invariant Ratings() == R
        invariant goal == TrainFrom(Latent(), R, numLatentFeature, accept, numIteration)
        decreases MaxNumIteration - numIteration
      {
        ghost var before := Latent();
        Epoch();
        TrainFromStep(before, R, numLatentFeature, accept, numIteration);
        if numIteration == MaxNumIteration {
          epochs := numIteration + 1;
          break;
        }
        numIteration := numIteration + 1;
      }
    }

    /** One epoch: every user row, every item column, the error check after
        each update ending only the current user's row. */
    method Epoch()
      requires Valid() && UserIndexedItemsExist()
      modifies usersLatentFeatureVector, itemsLatentFeatureVector
      ensures Latent() == EpochSweep(old(Latent()), Ratings(), numLatentFeature, AcceptTest(Ratings(), numLatentFeature), numUsers).factors
    {
      ghost var start := Latent();
      ghost var R := Ratings();
      ghost var accept := AcceptTest(R, numLatentFeature);
      for i := 0 to numUsers
        invariant Ratings() == R
        invariant Latent() == EpochSweep(start, R, numLatentFeature, accept, i).factors
      {
        SweepRow(i);
        EpochSweepStep(start, R, numLatentFeature, accept, i);
      }
    }

    /** The item loop of user row i inside an epoch. */
    method SweepRow(i: nat)
      requires Valid() && UserIndexedItemsExist() && i < numUsers
      modifies usersLatentFeatureVector, itemsLatentFeatureVector
      ensures Latent() == RowSweep(old(Latent()), Ratings(), numLatentFeature, AcceptTest(Ratings(), numLatentFeature), i, numItems).factors
    {
      ghost var rowStart := Latent();
      var j := 0;
      while j < numItems
        invariant j <= numItems
        invariant RowSweep(rowStart, Ratings(), numLatentFeature, AcceptTest(Ratings(), numLatentFeature), i, j).factors == Latent()
        invariant !RowSweep(rowStart, Ratings(), numLatentFeature, AcceptTest(Ratings(), numLatentFeature), i, j).stopped
      {
        var stop := SweepCell(rowStart, i, j);
        if stop {
          RowSweepStaysStopped(rowStart, Ratings(), numLatentFeature, AcceptTest(Ratings(), numLatentFeature), i, j + 1, numItems);
          break;
        }
        j := j + 1;
      }
    }

    /** One turn of the item loop of SweepRow, at column j: the update of an
        observed cell and the error check after it; stop is the `break`. */
    method SweepCell(ghost rowStart: Factors, i: nat, j: nat) returns (stop: bool)
      requires Valid() && UserIndexedItemsExist() && i < numUsers && j < numItems
      requires RowSweep(rowStart, Ratings(), numLatentFeature, AcceptTest(Ratings(), numLatentFeature), i, j).factors == Latent()
      requires !RowSweep(rowStart, Ratings(), numLatentFeature, AcceptTest(Ratings(), numLatentFeature), i, j).stopped
      modifies usersLatentFeatureVector, itemsLatentFeatureVector
      ensures RowSweep(rowStart, Ratings(), numLatentFeature, AcceptTest(Ratings(), numLatentFeature), i, j + 1).factors == Latent()
      ensures stop == RowSweep(rowStart, Ratings(), numLatentFeature, AcceptTest(Ratings(), numLatentFeature), i, j + 1).stopped
    {
      stop := false;
      if data[i, j] > 0 {
        UpdateUserLatentFeature(i, j);
        var error := CalculateSquareError();
        if error < AcceptedSquareError {
          stop := true;
        }
        assert stop == Accepted(Latent(), Ratings(), numLatentFeature);
      }
    }

    /** Total regularised squared error over the observed cells, where the
        penalty of cell (i, j) charges user vector i and item vector i. */
    method CalculateSquareError() returns (error: real)
      requires Valid() && UserIndexedItemsExist()
      ensures error == TotalError(Latent(), Ratings(), numLatentFeature, ItemOfUser)
      ensures error >= 0.0
    {
      error := 0.0;
      for i := 0 to numUsers
        invariant error == GridError(Latent(), Ratings(), numLatentFeature, ItemOfUser, i)
      {
        error := AddRowSquareError(i, error);
      }
      TotalErrorNonNegative(Latent(), Ratings(), numLatentFeature, ItemOfUser);
    }

    /** The item loop of CalculateSquareError for user row i, adding to error0. */
    method AddRowSquareError(i: nat, error0: real) returns (error: real)
      requires Valid() && UserIndexedItemsExist() && i < numUsers
      ensures error == error0 + RowError(Latent(), Ratings(), numLatentFeature, ItemOfUser, i, numItems)
    {
      ghost var F := Latent();
      ghost var R := Ratings();
      error := error0;
      for j := 0 to numItems
        invariant error == error0 + RowError(F, R, numLatentFeature, ItemOfUser, i, j)
      {
        if data[i, j] > 0 {
          var rating := data[i, j] as real;
          var predictedRating := CalculatePredictedRating(usersLatentFeatureVector, i, itemsLatentFeatureVector, j);
          var userLength := CalculateVectorLengthSqr(usersLatentFeatureVector, i);
          var itemLength := CalculateVectorLengthSqr(itemsLatentFeatureVector, i);
          RowErrorNext(F, R, numLatentFeature, ItemOfUser, i, j, rating, predictedRating, userLength, itemLength);
          error := error + (Square(rating - predictedRating) + Lambda * (userLength + itemLength));
        }
      }
    }

    /** Sum of the squares of every component of row r of m (a latent vector). */
    method CalculateVectorLengthSqr(m: array2<real>, r: nat) returns (len: real)
      requires r < m.Length0
      ensures len == NormSqr(Row(m, r))
      ensures len >= 0.0
    {
      len := 0.0;
      for i := 0 to m.Length1
        invariant len == SumSquares(Row(m, r), i)
      {
        len := len + Square(m[r, i]);
      }
      NormSqrIsSelfDot(Row(m, r));
    }

    /** One SGD step on cell (userIndex, itemIndex): both new vectors are
        computed from the current ones, then copied over them. */
    method UpdateUserLatentFeature(userIndex: nat, itemIndex: nat)
      requires Valid() && userIndex < numUsers && itemIndex < numItems
      modifies usersLatentFeatureVector, itemsLatentFeatureVector
      ensures Latent() == ApplyUpdate(old(Latent()), Ratings(), numLatentFeature, Cell(userIndex, itemIndex))
    {
      ghost var F := Latent();
      ghost var user := F.users[userIndex];
      ghost var item := F.items[itemIndex];
      var currentRating := data[userIndex, itemIndex];
      var newRating := CalculatePredictedRating(usersLatentFeatureVector, userIndex, itemsLatentFeatureVector, itemIndex);
      var err := currentRating as real - newRating;
      var newUserLatentFeatureVector := new real[numLatentFeature];
      var newItemLatentFeatureVector := new real[numLatentFeature];

      for i := 0 to numLatentFeature
        invariant unchanged(usersLatentFeatureVector, itemsLatentFeatureVector)
        invariant forall f :: 0 <= f < i ==> newUserLatentFeatureVector[f] == StepComponent(user[f], item[f], err)
        invariant forall f :: 0 <= f < i ==> newItemLatentFeatureVector[f] == StepComponent(item[f], user[f], err)
      {
        var userComponent := usersLatentFeatureVector[userIndex, i];
        var itemComponent := itemsLatentFeatureVector[itemIndex, i];
        newUserLatentFeatureVector[i] := StepComponent(userComponent, itemComponent, err);
        newItemLatentFeatureVector[i] := StepComponent(itemComponent, userComponent, err);
      }

      for i := 0 to numLatentFeature
        invariant forall f :: 0 <= f < numLatentFeature ==> newUserLatentFeatureVector[f] == StepComponent(user[f], item[f], err)
        invariant forall f :: 0 <= f < numLatentFeature ==> newItemLatentFeatureVector[f] == StepComponent(item[f], user[f], err)
        invariant forall p, f :: 0 <= p < numUsers && 0 <= f < numLatentFeature ==>
          usersLatentFeatureVector[p, f] == if p == userIndex && f < i then newUserLatentFeatureVector[f] else old(usersLatentFeatureVector[p, f])
        invariant forall p, f :: 0 <= p < numItems && 0 <= f < numLatentFeature ==>
          itemsLatentFeatureVector[p, f] == if p == itemIndex && f < i then newItemLatentFeatureVector[f] else old(itemsLatentFeatureVector[p, f])
      {
        usersLatentFeatureVector[userIndex, i] := newUserLatentFeatureVector[i];
        itemsLatentFeatureVector[itemIndex, i] := newItemLatentFeatureVector[i];
      }

      StepWritten(usersLatentFeatureVector, itemsLatentFeatureVector, Ratings(), numLatentFeature, F, userIndex, itemIndex, err);
    }

    /** The dot product of the first numLatentFeature components of row p of
        a and row q of b (a user vector and an item vector). */
    method CalculatePredictedRating(a: array2<real>, p: nat, b: array2<real>, q: nat) returns (rating: real)
      requires p < a.Length0 && q < b.Length0 && numLatentFeature <= a.Length1 && numLatentFeature <= b.Length1
      ensures rating == Dot(Row(a, p), Row(b, q), numLatentFeature)
      ensures rating == Dot(Row(b, q), Row(a, p), numLatentFeature)
    {
      rating := 0.0;
      for i := 0 to numLatentFeature
        invariant rating == Dot(Row(a, p), Row(b, q), i)
      {
        rating := rating + a[p, i] * b[q, i];
      }
      DotSymmetric(Row(a, p), Row(b, q), numLatentFeature);
    }
  }
}
