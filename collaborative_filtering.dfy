/** The newer trainer, CollaborativeFiltering: ratings written from triples
    without an id check, every observed cell updated once per epoch in
    row-major order, and the mean squared error checked only on every 100th
    epoch. */
module Collaborative {
  import opened RatingData
  import opened LatentAlgebra
  import opened Sgd
  import opened Views
  import opened LatentMatrices

  const AcceptedSquareError: real := 0.1

  /** The error is computed only when the iteration counter is a multiple of this. */
  const ErrorCheckPeriod: nat := 100

  /** One epoch: the update of every observed cell, in row-major order. */
  function Sweep(F: Factors, R: seq<seq<int>>, k: nat): Factors
  {
    ApplyAll(F, R, k, ObservedCells(R, |F.items|))
  }

  /** n epochs in a row. */
  function Epochs(F: Factors, R: seq<seq<int>>, k: nat, n: nat): (G: Factors)
    ensures |G.items| == |F.items|
  {
    if n == 0 then F else Sweep(Epochs(F, R, k, n - 1), R, k)
  }

  /** The loop ends after the epoch of counter `it` through the error check. */
  predicate Accepts(G: Factors, R: seq<seq<int>>, k: nat, it: nat)
  {
    it % ErrorCheckPeriod == 0 && Below(MeanSquareError(G, R, k), AcceptedSquareError)
  }

  /** Training from F0, the check after the epoch of counter n (the
      (n + 1)-th epoch) ends the loop. */
  predicate StopsAt(F0: Factors, R: seq<seq<int>>, k: nat, n: nat)
  {
    Accepts(Epochs(F0, R, k, n + 1), R, k, n)
  }

  /** The epoch loop from iteration counter `it` on: an epoch, the error
      check on counters that are multiples of 100, then the cap. */
  function TrainFrom(F: Factors, R: seq<seq<int>>, k: nat, it: nat): Run
    requires it <= MaxNumIteration
    decreases MaxNumIteration - it
  {
    var G := Sweep(F, R, k);
    if Accepts(G, R, k, it) || it == MaxNumIteration then Run(G, it + 1) else TrainFrom(G, R, k, it + 1)
  }

  /** One turn of the epoch loop. */
  lemma TrainFromStep(F: Factors, R: seq<seq<int>>, k: nat, it: nat)
    requires it <= MaxNumIteration
    ensures var G := Sweep(F, R, k);
            TrainFrom(F, R, k, it) == if Accepts(G, R, k, it) || it == MaxNumIteration then Run(G, it + 1) else TrainFrom(G, R, k, it + 1)
  {
  }

  /** Training from F0, resumed at counter `it` after `it` epochs, runs
      between it + 1 and MaxNumIteration + 1 epochs in all, leaves the
      vectors of that many epochs, and stops at the first counter from `it`
      on whose check accepts, or at the cap when none does. */
  lemma {:induction false} TrainFromExit(F0: Factors, R: seq<seq<int>>, k: nat, it: nat)
    requires it <= MaxNumIteration
    ensures var r := TrainFrom(Epochs(F0, R, k, it), R, k, it);
            it < r.epochs <= MaxNumIteration + 1 &&
            r.factors == Epochs(F0, R, k, r.epochs) &&
            (r.epochs == MaxNumIteration + 1 || StopsAt(F0, R, k, r.epochs - 1)) &&
            forall n :: it <= n < r.epochs - 1 ==> !StopsAt(F0, R, k, n)
    decreases MaxNumIteration - it
  {
    var G := Sweep(Epochs(F0, R, k, it), R, k);
    assert G == Epochs(F0, R, k, it + 1);
    if !(Accepts(G, R, k, it) || it == MaxNumIteration) {
      TrainFromExit(F0, R, k, it + 1);
    }
  }

  /** Training from F runs at most MaxNumIteration + 1 epochs, ends at the
      first accepting check or at the cap, and leaves the vectors of the
      epochs it ran. */
  lemma TrainExit(F: Factors, R: seq<seq<int>>, k: nat)
    ensures var r := TrainFrom(F, R, k, 0);
            1 <= r.epochs <= MaxNumIteration + 1 &&
            r.factors == Epochs(F, R, k, r.epochs) &&
            (r.epochs == MaxNumIteration + 1 || ((r.epochs - 1) % ErrorCheckPeriod == 0 && Below(MeanSquareError(r.factors, R, k), AcceptedSquareError))) &&
            forall n :: 0 <= n < r.epochs - 1 ==> !StopsAt(F, R, k, n)
  {
    TrainFromExit(F, R, k, 0);
  }

  /** Without a single observed cell no epoch changes anything and the mean
      is NaN, so no check accepts and training runs to the cap. */
  lemma {:induction false} NoRatingsRunsToCap(F: Factors, R: seq<seq<int>>, k: nat, it: nat)
    requires it <= MaxNumIteration
    requires IsGrid(R, |F.items|) && forall c :: !Observed(R, c)
    ensures TrainFrom(F, R, k, it) == Run(F, MaxNumIteration + 1)
    decreases MaxNumIteration - it
  {
    ObservedCountZero(R, |F.items|);
    assert Sweep(F, R, k) == F;
    if it < MaxNumIteration {
      NoRatingsRunsToCap(F, R, k, it + 1);
    }
  }

  /** One epoch visits only observed cells, each once, in row-major order,
      so a user without ratings and an item without ratings keep their vectors. */
  lemma SweepKeepsUnrated(F: Factors, R: seq<seq<int>>, k: nat)
    requires IsGrid(R, |F.items|)
    ensures forall u :: 0 <= u < |F.users| && (forall q :: !Observed(R, Cell(u, q))) ==> Sweep(F, R, k).users[u] == F.users[u]
    ensures forall q :: 0 <= q < |F.items| && (forall u :: !Observed(R, Cell(u, q))) ==> Sweep(F, R, k).items[q] == F.items[q]
  {
    ObservedCellsExact(R, |F.items|);
    ApplyAllKeeps(F, R, k, ObservedCells(R, |F.items|));
  }

  /** The rows 0..i of an epoch: rows 0..i-1, then the observed cells of row i. */
  lemma ApplyNextRow(F: Factors, R: seq<seq<int>>, k: nat, n: nat, i: nat, G: Factors, H: Factors)
    requires G == ApplyAll(F, R, k, GridCells(R, n, i)) && H == ApplyAll(G, R, k, RowCells(R, i, n))
    ensures H == ApplyAll(F, R, k, GridCells(R, n, i + 1))
  {
    ApplyAllAppend(F, R, k, GridCells(R, n, i), RowCells(R, i, n));
  }

  class CollaborativeFiltering {
    const numLatentFeature: nat
    const numUsers: nat
    const numItems: nat

    const ratings: array2<int>
    const usersLatentFeatureVector: array2<real>
    const itemsLatentFeatureVector: array2<real>

    /** The shapes the constructor sets up. */
    ghost predicate Valid()
    {
      ratings.Length0 == numUsers && ratings.Length1 == numItems &&
      usersLatentFeatureVector.Length0 == numUsers && usersLatentFeatureVector.Length1 == numLatentFeature &&
      itemsLatentFeatureVector.Length0 == numItems && itemsLatentFeatureVector.Length1 == numLatentFeature &&
      usersLatentFeatureVector != itemsLatentFeatureVector
    }

    ghost function Ratings(): seq<seq<int>>
      reads ratings
    {
      Grid(ratings)
    }

    ghost function Latent(): (F: Factors)
      reads usersLatentFeatureVector, itemsLatentFeatureVector
    {
      Factors(Grid(usersLatentFeatureVector), Grid(itemsLatentFeatureVector))
    }

    /** Builds the rating matrix from the triples, last write winning and
        every other cell 0, then fills both latent matrices with the given
        initial values (the source draws them at random). */
    constructor (trainingData: seq<Triple>, numUsers: nat, numItems: nat, numLatentFeature: nat,
                 initialUsers: seq<seq<real>>, initialItems: seq<seq<real>>)
      requires forall t :: t in trainingData ==> InShape(t, numUsers, numItems)
      requires |initialUsers| == numUsers && forall u :: 0 <= u < numUsers ==> |initialUsers[u]| == numLatentFeature
      requires |initialItems| == numItems && forall j :: 0 <= j < numItems ==> |initialItems[j]| == numLatentFeature
      ensures Valid()
      ensures this.numUsers == numUsers && this.numItems == numItems && this.numLatentFeature == numLatentFeature
      ensures fresh(ratings) && fresh(usersLatentFeatureVector) && fresh(itemsLatentFeatureVector)
      ensures forall a, b :: 0 <= a < numUsers && 0 <= b < numItems ==>
                ratings[a, b] == LastWrite(trainingData, |trainingData|, Unchecked, a, b, 0)
      ensures Latent() == Factors(initialUsers, initialItems)
    {
      this.numUsers := numUsers;
      this.numItems := numItems;
      this.numLatentFeature := numLatentFeature;
      this.ratings := new int[numUsers, numItems]((_, _) => 0);
      this.usersLatentFeatureVector := new real[numUsers, numLatentFeature]((_, _) => 0.0);
      this.itemsLatentFeatureVector := new real[numItems, numLatentFeature]((_, _) => 0.0);
      new;
      LoadRatingMatrix(trainingData);
      InitializeLatentFeatureVectors(initialUsers, initialItems);
    }

    /** Writes rating r at (user - 1, item - 1) for every triple, in order.
        Ids are not checked: every id must lie in range. */
    method LoadRatingMatrix(trainingData: seq<Triple>)
      requires Valid()
      requires forall t :: t in trainingData ==> InShape(t, numUsers, numItems)
      modifies ratings
      ensures forall a, b :: 0 <= a < numUsers && 0 <= b < numItems ==>
                ratings[a, b] == LastWrite(trainingData, |trainingData|, Unchecked, a, b, old(ratings[a, b]))
    {
      for i := 0 to |trainingData|
        invariant forall a, b :: 0 <= a < numUsers && 0 <= b < numItems ==>
                    ratings[a, b] == LastWrite(trainingData, i, Unchecked, a, b, old(ratings[a, b]))
      {
        var user := trainingData[i].user;
        var item := trainingData[i].item;
        var rating := trainingData[i].rating;
        assert InShape(trainingData[i], numUsers, numItems);
        ratings[user - 1, item - 1] := rating;
      }
    }

    /** Fills both latent matrices with the given values. */
    method InitializeLatentFeatureVectors(initialUsers: seq<seq<real>>, initialItems: seq<seq<real>>)
      requires Valid()
      requires |initialUsers| == numUsers && forall u :: 0 <= u < numUsers ==> |initialUsers[u]| == numLatentFeature
      requires |initialItems| == numItems && forall j :: 0 <= j < numItems ==> |initialItems[j]| == numLatentFeature
      modifies usersLatentFeatureVector, itemsLatentFeatureVector
      ensures Latent() == Factors(initialUsers, initialItems)
    {
      for i := 0 to numUsers
        invariant forall p, f :: 0 <= p < i && 0 <= f < numLatentFeature ==> usersLatentFeatureVector[p, f] == initialUsers[p][f]
      {
        for j := 0 to numLatentFeature
          invariant forall p, f :: 0 <= p < i && 0 <= f < numLatentFeature ==> usersLatentFeatureVector[p, f] == initialUsers[p][f]
          invariant forall f :: 0 <= f < j ==> usersLatentFeatureVector[i, f] == initialUsers[i][f]
        {
          usersLatentFeatureVector[i, j] := initialUsers[i][j];
        }
      }
      for i := 0 to numItems
        invariant forall p, f :: 0 <= p < numUsers && 0 <= f < numLatentFeature ==> usersLatentFeatureVector[p, f] == initialUsers[p][f]
        invariant forall p, f :: 0 <= p < i && 0 <= f < numLatentFeature ==> itemsLatentFeatureVector[p, f] == initialItems[p][f]
      {
        for j := 0 to numLatentFeature
          invariant forall p, f :: 0 <= p < numUsers && 0 <= f < numLatentFeature ==> usersLatentFeatureVector[p, f] == initialUsers[p][f]
          invariant forall p, f :: 0 <= p < i && 0 <= f < numLatentFeature ==> itemsLatentFeatureVector[p, f] == initialItems[p][f]
          invariant forall f :: 0 <= f < j ==> itemsLatentFeatureVector[i, f] == initialItems[i][f]
        {
          itemsLatentFeatureVector[i, j] := initialItems[i][j];
        }
      }
      GridIs(usersLatentFeatureVector, initialUsers);
      GridIs(itemsLatentFeatureVector, initialItems);
    }

    /** The epoch loop: an epoch, the error check on every 100th counter
        value, and the cap. */
    method TrainMatrixFactorization() returns (epochs: nat)
      requires Valid()
      modifies usersLatentFeatureVector, itemsLatentFeatureVector
      ensures Run(Latent(), epochs) == TrainFrom(old(Latent()), Ratings(), numLatentFeature, 0)
      ensures 1 <= epochs <= MaxNumIteration + 1
    {
      ghost var goal := TrainFrom(Latent(), Ratings(), numLatentFeature, 0);
      var numIteration: nat := 0;
      while true
        invariant numIteration <= MaxNumIteration
        invariant goal == TrainFrom(Latent(), Ratings(), numLatentFeature, numIteration)
        decreases MaxNumIteration - numIteration
      {
        ghost var before := Latent();
        Epoch();
        TrainFromStep(before, Ratings(), numLatentFeature, numIteration);
        if numIteration % ErrorCheckPeriod == 0 {
          var error := CalculateMeanSquareError();
          if Below(error, AcceptedSquareError) {
            epochs := numIteration + 1;
            break;
          }
        }
        if numIteration == MaxNumIteration {
          epochs := numIteration + 1;
          break;
        }
        numIteration := numIteration + 1;
      }
    }

    /** One epoch: every user row, every item column, each observed cell updated. */
    method Epoch()
      requires Valid()
      modifies usersLatentFeatureVector, itemsLatentFeatureVector
      ensures Latent() == Sweep(old(Latent()), Ratings(), numLatentFeature)
    {
      ghost var start := Latent();
      ghost var R := Ratings();
      for i := 0 to numUsers
        invariant Latent() == ApplyAll(start, R, numLatentFeature, GridCells(R, numItems, i))
      {
        ghost var before := Latent();
        SweepRow(i);
        ApplyNextRow(start, R, numLatentFeature, numItems, i, before, Latent());
      }
    }

    /** The item loop of user row i inside an epoch. */
    method SweepRow(i: nat)
      requires Valid() && i < numUsers
      modifies usersLatentFeatureVector, itemsLatentFeatureVector
      ensures Latent() == ApplyAll(old(Latent()), Ratings(), numLatentFeature, RowCells(Ratings(), i, numItems))
    {
      ghost var rowStart := Latent();
      for j := 0 to numItems
        invariant Latent() == ApplyAll(rowStart, Ratings(), numLatentFeature, RowCells(Ratings(), i, j))
      {
        if ratings[i, j] > 0 {
          UpdateUserLatentFeature(i, j);
          ApplyAllSnoc(rowStart, Ratings(), numLatentFeature, RowCells(Ratings(), i, j), Cell(i, j));
          assert RowCells(Ratings(), i, j + 1) == RowCells(Ratings(), i, j) + [Cell(i, j)];
        } else {
          assert RowCells(Ratings(), i, j + 1) == RowCells(Ratings(), i, j);
        }
      }
    }

    /** The predicted rating of every test triple, from rows user - 1 and
        item - 1 (the source prints them next to the given ratings). */
    method Predict(testData: seq<Triple>) returns (predictions: seq<real>)
      requires Valid()
      requires forall n :: 0 <= n < |testData| ==> 1 <= testData[n].user <= numUsers && 1 <= testData[n].item <= numItems
      ensures |predictions| == |testData|
      ensures forall n :: 0 <= n < |testData| ==>
                predictions[n] == Dot(Latent().users[testData[n].user - 1], Latent().items[testData[n].item - 1], numLatentFeature)
    {
      predictions := [];
      for i := 0 to |testData|
        invariant |predictions| == i
        invariant forall n :: 0 <= n < i ==>
                    predictions[n] == Dot(Latent().users[testData[n].user - 1], Latent().items[testData[n].item - 1], numLatentFeature)
      {
        var userIndex := testData[i].user - 1;
        var itemIndex := testData[i].item - 1;
        var predictedRating := CalculatePredictedRating(usersLatentFeatureVector, userIndex, itemsLatentFeatureVector, itemIndex);
        predictions := predictions + [predictedRating];
      }
    }

    /** One SGD step on cell (userIndex, itemIndex): both new vectors are
        computed from the current ones, then copied over them. */
    method UpdateUserLatentFeature(userIndex: nat, itemIndex: nat)
      requires Valid() && userIndex < numUsers && itemIndex < numItems
      modifies usersLatentFeatureVector, itemsLatentFeatureVector
      ensures Latent() == ApplyUpdate(old(Latent()), Ratings(), numLatentFeature, Cell(userIndex, itemIndex))
    {
      ghost var F := Latent();
      ghost var user := F.users[userIndex];
      ghost var item := F.items[itemIndex];
      var currentRating := ratings[userIndex, itemIndex];
      var newRating := CalculatePredictedRating(usersLatentFeatureVector, userIndex, itemsLatentFeatureVector, itemIndex);
      var err := currentRating as real - newRating;
      var newUserLatentFeatureVector := new real[numLatentFeature];
      var newItemLatentFeatureVector := new real[numLatentFeature];

      for i := 0 to numLatentFeature
        invariant unchanged(usersLatentFeatureVector, itemsLatentFeatureVector)
        invariant forall f :: 0 <= f < i ==> newUserLatentFeatureVector[f] == StepComponent(user[f], item[f], err)
        invariant forall f :: 0 <= f < i ==> newItemLatentFeatureVector[f] == StepComponent(item[f], user[f], err)
      {
        var userComponent := usersLatentFeatureVector[userIndex, i];
        var itemComponent := itemsLatentFeatureVector[itemIndex, i];
        newUserLatentFeatureVector[i] := StepComponent(userComponent, itemComponent, err);
        newItemLatentFeatureVector[i] := StepComponent(itemComponent, userComponent, err);
      }

      for i := 0 to numLatentFeature
        invariant forall f :: 0 <= f < numLatentFeature ==> newUserLatentFeatureVector[f] == StepComponent(user[f], item[f], err)
        invariant forall f :: 0 <= f < numLatentFeature ==> newItemLatentFeatureVector[f] == StepComponent(item[f], user[f], err)
        invariant forall p, f :: 0 <= p < numUsers && 0 <= f < numLatentFeature ==>
          usersLatentFeatureVector[p, f] == if p == userIndex && f < i then newUserLatentFeatureVector[f] else old(usersLatentFeatureVector[p, f])
        invariant forall p, f :: 0 <= p < numItems && 0 <= f < numLatentFeature ==>
          itemsLatentFeatureVector[p, f] == if p == itemIndex && f < i then newItemLatentFeatureVector[f] else old(itemsLatentFeatureVector[p, f])
      {
        usersLatentFeatureVector[userIndex, i] := newUserLatentFeatureVector[i];
        itemsLatentFeatureVector[itemIndex, i] := newItemLatentFeatureVector[i];
      }

      StepWritten(usersLatentFeatureVector, itemsLatentFeatureVector, Ratings(), numLatentFeature, F, userIndex, itemIndex, err);
    }

    /** The regularised squared error over the observed cells divided by
        twice their number; NaN (0.0 / 0) when no cell is observed. */
    method CalculateMeanSquareError() returns (mse: Ratio)
      requires Valid()
      ensures mse == MeanSquareError(Latent(), Ratings(), numLatentFeature)
    {
      var error := 0.0;
      var numRatings := 0;
      for i := 0 to numUsers
        invariant error == GridError(Latent(), Ratings(), numLatentFeature, ItemOfCell, i)
        invariant numRatings == |GridCells(Ratings(), numItems, i)|
      {
        error, numRatings := AddRowMeanSquareError(i, error, numRatings);
      }
      numRatings := numRatings * 2;
      if numRatings == 0 {
        mse := NaN;
      } else {
        mse := Defined(error / numRatings as real);
      }
    }

    /** The item loop of CalculateMeanSquareError for user row i, adding to
        the running error and the running count of observed cells. */
    method AddRowMeanSquareError(i: nat, error0: real, count0: nat) returns (error: real, count: nat)
      requires Valid() && i < numUsers
      ensures error == error0 + RowError(Latent(), Ratings(), numLatentFeature, ItemOfCell, i, numItems)
      ensures count == count0 + |RowCells(Ratings(), i, numItems)|
    {
      ghost var F := Latent();
      ghost var R := Ratings();
      error, count := error0, count0;
      for j := 0 to numItems
        invariant error == error0 + RowError(F, R, numLatentFeature, ItemOfCell, i, j)
        invariant count == count0 + |RowCells(R, i, j)|
      {
        if ratings[i, j] > 0 {
          var rating := ratings[i, j] as real;
          var predictedRating := CalculatePredictedRating(usersLatentFeatureVector, i, itemsLatentFeatureVector, j);
          var userLength := CalculateVectorLengthSqr(usersLatentFeatureVector, i);
          var itemLength := CalculateVectorLengthSqr(itemsLatentFeatureVector, j);
          RowErrorNext(F, R, numLatentFeature, ItemOfCell, i, j, rating, predictedRating, userLength, itemLength);
          error := error + (Square(rating - predictedRating) + Lambda * (userLength + itemLength));
          count := count + 1;
        }
      }
    }

    /** Sum of the squares of every component of row r of m (a latent vector). */
    method CalculateVectorLengthSqr(m: array2<real>, r: nat) returns (len: real)
      requires r < m.Length0
      ensures len == NormSqr(Row(m, r))
      ensures len >= 0.0
    {
      len := 0.0;
      for i := 0 to m.Length1
        invariant len == SumSquares(Row(m, r), i)
      {
        len := len + Square(m[r, i]);
      }
      NormSqrIsSelfDot(Row(m, r));
    }

    /** The dot product of the first numLatentFeature components of row p of
        a and row q of b (a user vector and an item vector). */
    method CalculatePredictedRating(a: array2<real>, p: nat, b: array2<real>, q: nat) returns (rating: real)
      requires p < a.Length0 && q < b.Length0 && numLatentFeature <= a.Length1 && numLatentFeature <= b.Length1
      ensures rating == Dot(Row(a, p), Row(b, q), numLatentFeature)
      ensures rating == Dot(Row(b, q), Row(a, p), numLatentFeature)
    {
      rating := 0.0;
      for i := 0 to numLatentFeature
        invariant rating == Dot(Row(a, p), Row(b, q), i)
      {
        rating := rating + a[p, i] * b[q, i];
      }
      DotSymmetric(Row(a, p), Row(b, q), numLatentFeature);
    }
  }
}
