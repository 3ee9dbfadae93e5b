# Matrix-factorisation movie recommenders, modelled in Dafny

The repository has two near-duplicate trainers for collaborative filtering by
matrix factorisation.

- `MovieRatingRecommender` is the older one.
- `CollaborativeFiltering` is the newer one.

Both work the same way:

- They hold a rating matrix with one row per user and one column per item; 0 marks an unrated cell.
- They hold one latent feature vector of length `numLatentFeature` per user and one per item.
- They train by stochastic gradient descent. Rated cells are visited in row-major order, and each visited cell's user vector and item vector both take one regularised step towards the rating. The older trainer skips the rest of a user's row once its error check passes (below).

They differ in these ways:

- how ratings are loaded;
- the error they watch;
- how often they check it;
- what the check does.

The model keeps each trainer as a Dafny class with the Java fields as arrays
(`array2`). The methods mirror the Java loops and are proved against pure
specification functions.

Modules:

- `RatingData` covers rating triples and how a loader writes them into the matrix (`LastWrite`). It also fixes the list of observed cells in row-major order (`ObservedCells`), proved to be exactly the cells rated above 0, each once, in order.
- `LatentAlgebra` holds the dot product and the squared norm over exact reals.
- `Sgd` holds shared definitions and constants:
  - the vectors as values (`Factors`);
  - the update of one cell (`ApplyUpdate`) and of a list of cells in order (`ApplyAll`);
  - the regularised error sums (`TotalError`);
  - the mean error of the newer trainer (`MeanSquareError`), with Java's NaN as a value of its own (`Ratio.NaN`; every comparison with it is false);
  - the constants the two trainers share: learning rate 0.01, lambda 0.01, and 5000 as the iteration cap.
- `Views` reads an `array2` as a sequence of rows, and `LatentMatrices` connects the arrays after an in-place update to `ApplyUpdate`.
- `Recommender` is `MovieRatingRecommender`.
  - Triples are kept only when both ids lie in 1..10.
  - The total error is computed after every single update.
  - The `break` taken when that error is below 1 leaves only the item loop of the current user, so training always runs all 5001 epochs (`TrainRunsAllEpochs`).
  - The penalty term of cell (i, j) charges item vector i (the user's index), not item vector j; `PenaltyChargesUserIndexedItem` shows a case where the two differ.
- `Collaborative` is `CollaborativeFiltering`.
  - Triples are written without any id check.
  - After every epoch whose counter is a multiple of 100, it computes the regularised error divided by twice the number of rated cells and stops when that is below 0.1.
  - Otherwise it stops at the cap (`TrainExit`).

Three quirks of the code are kept as written:

- `CollaborativeFiltering` divides the summed error by twice the number of rated cells (lines 94-95).
- With no rated cell that division is 0.0 / 0, which is NaN. The model keeps NaN, so such a run never accepts and goes to the cap (`NoRatingsRunsToCap`).
- `MovieRatingRecommender` charges the penalty of cell (i, j) to item vector i, the user's index, instead of the cell's own item j (line 59).

## Model

| member | source | states |
|---|---|---|
| RatingData.LastWriteWins | src/main/java/MovieRatingRecommender.java:121-130 | when several admitted triples name the same cell, the cell ends with the rating of the last of them |
| RatingData.UnwrittenKeepsBase | src/main/java/MovieRatingRecommender.java:127-129 | a cell that no admitted triple names keeps the value it held before loading (0 after construction) |
| RatingData.LastWriteSource | src/main/java/CollaborativeFiltering.java:136-144 | after loading, every cell holds either its old value or the rating of some admitted triple that names it |
| RatingData.ObservedCellsExact | src/main/java/CollaborativeFiltering.java:26-32 | the cells an epoch of the newer trainer visits are exactly the cells rated above 0, in strictly row-major order |
| RatingData.ObservedCountZero | src/main/java/CollaborativeFiltering.java:83-93 | the count of rated cells is 0 exactly when no cell holds a rating above 0 |
| LatentAlgebra.DotSymmetric | src/main/java/MovieRatingRecommender.java:94-101 | the predicted rating does not depend on the order of its two vector arguments |
| LatentAlgebra.NormSqrIsSelfDot | src/main/java/MovieRatingRecommender.java:66-72 | the squared length equals the dot product of the vector with itself, and it is at least 0 |
| Sgd.ApplyUpdateChanges | src/main/java/MovieRatingRecommender.java:74-91 | the update of a cell changes only its user vector and its item vector; every new component is `x + 0.01 * (err * y - 0.01 * x)`, where x, its partner component y and the error err all come from before the update |
| Sgd.ApplyAllKeeps | src/main/java/CollaborativeFiltering.java:26-32 | a sequence of updates leaves unchanged every user vector and every item vector that none of its cells names |
| Sgd.TotalErrorOverObserved | src/main/java/MovieRatingRecommender.java:52-64 | the error sum is the sum of the per-cell error over exactly the cells rated above 0; unrated cells contribute nothing |
| Sgd.TotalErrorNonNegative | src/main/java/MovieRatingRecommender.java:52-64 | the regularised error sum is at least 0, whichever item vector the penalty charges |
| Sgd.MeanSquareErrorDefined | src/main/java/CollaborativeFiltering.java:94-95 | the mean error is a number (not NaN) exactly when some cell is rated, and is then at least 0 |
| Recommender.RowSweepVisits | src/main/java/MovieRatingRecommender.java:34-41 | the item loop of one user updates a prefix of that user's rated cells in column order, and all of them unless it took the `break` |
| Recommender.RowSweepBreak | src/main/java/MovieRatingRecommender.java:35-39 | the item loop stops only after an update, exactly when the check passes on the vectors that update left, and the check failed after every earlier update of that row |
| Recommender.RowSweepStaysStopped | src/main/java/MovieRatingRecommender.java:39 | after the `break` the rest of that user's columns change nothing |
| Recommender.RowSweepApplies | src/main/java/MovieRatingRecommender.java:34-41 | the vectors the item loop leaves are the updates of the cells it visited, applied in order |
| Recommender.RowSweepObserved | src/main/java/MovieRatingRecommender.java:34-36 | the item loop of user i updates only rated cells of row i |
| Recommender.RowSweepOrder | src/main/java/MovieRatingRecommender.java:34-36 | the item loop updates cells in strictly increasing column order |
| Recommender.EpochSweepObserved | src/main/java/MovieRatingRecommender.java:33-36 | one epoch passes only cells rated above 0 to the update |
| Recommender.EpochSweepOrder | src/main/java/MovieRatingRecommender.java:33-42 | one epoch updates cells in strictly row-major order |
| Recommender.EpochSweepApplies | src/main/java/MovieRatingRecommender.java:33-42 | the vectors one epoch leaves are the updates of the cells it visited, applied one after another |
| Recommender.TrainRunsAllEpochs | src/main/java/MovieRatingRecommender.java:30-49 | whatever the error does, training runs exactly 5001 epochs and ends with the vectors of 5001 epochs |
| Recommender.PenaltyChargesUserIndexedItem | src/main/java/MovieRatingRecommender.java:59 | for one concrete matrix the error sum charging item vector i differs from the sum charging item vector j |
| Recommender.MovieRatingRecommender.constructor | src/main/java/MovieRatingRecommender.java:164-172 | the rating matrix is numUsers x numItems, the user vectors are numUsers x numLatentFeature and the item vectors numItems x numLatentFeature, all zero |
| Recommender.MovieRatingRecommender.LoadTrainingData | src/main/java/MovieRatingRecommender.java:118-131 | each cell ends as the last write to it by a triple whose ids both lie in 1..10; triples outside that range change nothing; writes are in bounds when every admitted triple fits the matrix |
| Recommender.MovieRatingRecommender.InitializeLatentFeatureVectors | src/main/java/MovieRatingRecommender.java:103-116 | every user vector and item vector holds the given initial values |
| Recommender.MovieRatingRecommender.TrainMatrixFactorization | src/main/java/MovieRatingRecommender.java:27-50 | the final vectors and epoch count are those of the epoch loop from the vectors before training, and the count is 5001 |
| Recommender.MovieRatingRecommender.Epoch | src/main/java/MovieRatingRecommender.java:33-42 | the vectors after the nested loops are those of one epoch sweep under the total-error check |
| Recommender.MovieRatingRecommender.SweepRow | src/main/java/MovieRatingRecommender.java:34-41 | the vectors after the item loop of user i are those of that row's sweep, the `break` included |
| Recommender.MovieRatingRecommender.SweepCell | src/main/java/MovieRatingRecommender.java:35-40 | one column of the item loop advances the row sweep by one cell, and it reports the `break` exactly when the sweep stops there |
| Recommender.MovieRatingRecommender.CalculateSquareError | src/main/java/MovieRatingRecommender.java:52-64 | returns the regularised error summed over the rated cells, with the penalty charging user vector i and item vector i; the result is at least 0 |
| Recommender.MovieRatingRecommender.AddRowSquareError | src/main/java/MovieRatingRecommender.java:55-61 | adds the error of row i's rated cells to the running sum |
| Recommender.MovieRatingRecommender.CalculateVectorLengthSqr | src/main/java/MovieRatingRecommender.java:66-72 | returns the squared length of the vector, which is at least 0 |
| Recommender.MovieRatingRecommender.UpdateUserLatentFeature | src/main/java/MovieRatingRecommender.java:74-91 | the vectors afterwards are the SGD update of the cell from the vectors before it (see Sgd.ApplyUpdateChanges); the rating matrix is not modified |
| Recommender.MovieRatingRecommender.CalculatePredictedRating | src/main/java/MovieRatingRecommender.java:94-101 | returns the dot product of the first numLatentFeature components, and the same value with the arguments swapped |
| Collaborative.TrainFromExit | src/main/java/CollaborativeFiltering.java:23-48 | resumed at counter n, training runs between n + 1 and 5001 epochs and leaves the vectors of that many epochs; it stops at the first counter from n on whose check accepts, or at the cap |
| Collaborative.TrainExit | src/main/java/CollaborativeFiltering.java:23-48 | training runs 1 to 5001 epochs and leaves the vectors of the epochs it ran; it ends either at the cap or on an epoch whose counter is a multiple of 100 and whose mean error is below 0.1; no earlier check accepted |
| Collaborative.NoRatingsRunsToCap | src/main/java/CollaborativeFiltering.java:35-45 | with no rated cell the vectors never change and the NaN mean never accepts, so training runs all 5001 epochs |
| Collaborative.SweepKeepsUnrated | src/main/java/CollaborativeFiltering.java:26-32 | an epoch leaves unchanged the vector of every user that has no rating and of every item that has no rating |
| Collaborative.CollaborativeFiltering.constructor | src/main/java/CollaborativeFiltering.java:14-21 | the three matrices are newly allocated with their shapes, the ratings are the last writes of the triples over zeros, and the vectors hold the initial values |
| Collaborative.CollaborativeFiltering.LoadRatingMatrix | src/main/java/CollaborativeFiltering.java:134-145 | each cell ends as the last write to it by any triple; every triple must name a cell inside the matrix |
| Collaborative.CollaborativeFiltering.InitializeLatentFeatureVectors | src/main/java/CollaborativeFiltering.java:116-132 | every user vector and item vector holds the given initial values |
| Collaborative.CollaborativeFiltering.TrainMatrixFactorization | src/main/java/CollaborativeFiltering.java:23-48 | the final vectors and the epoch count are those of the epoch loop from the vectors before training; the count lies in 1..5001 |
| Collaborative.CollaborativeFiltering.Epoch | src/main/java/CollaborativeFiltering.java:26-32 | the vectors after the nested loops are the updates of every rated cell in row-major order |
| Collaborative.CollaborativeFiltering.SweepRow | src/main/java/CollaborativeFiltering.java:27-31 | the vectors after the item loop of user i are the updates of row i's rated cells, in column order |
| Collaborative.CollaborativeFiltering.Predict | src/main/java/CollaborativeFiltering.java:51-60 | one prediction per test triple, each the dot product of user vector user - 1 and item vector item - 1; nothing is modified |
| Collaborative.CollaborativeFiltering.UpdateUserLatentFeature | src/main/java/CollaborativeFiltering.java:62-79 | the vectors afterwards are the SGD update of the cell from the vectors before it; only the cell's user row and item row change |
| Collaborative.CollaborativeFiltering.CalculateMeanSquareError | src/main/java/CollaborativeFiltering.java:81-96 | returns the regularised error over the rated cells, with the penalty charging the cell's own user and item vectors, divided by twice the number of rated cells; NaN when there are none |
| Collaborative.CollaborativeFiltering.AddRowMeanSquareError | src/main/java/CollaborativeFiltering.java:85-92 | adds the error of row i's rated cells to the running sum and their number to the running count |
| Collaborative.CollaborativeFiltering.CalculateVectorLengthSqr | src/main/java/CollaborativeFiltering.java:98-104 | returns the squared length of the vector, which is at least 0 |
| Collaborative.CollaborativeFiltering.CalculatePredictedRating | src/main/java/CollaborativeFiltering.java:107-114 | returns the dot product of the first numLatentFeature components, and the same value with the arguments swapped |

## Left out

**Outside the model**
- File reading and parsing in `loadTrainingData`: the input is a sequence of already parsed triples (`Triple`).
- Console output: `printData`, `printResult`, the `println` calls in the loops and the printing in `predict`. `Predict` returns its predictions as a sequence instead.
- `main`, `train()` and `Utils.java`: `train()` only calls the loader, the initialiser, the trainer and the two print methods in turn; `Utils.java` only writes files.
- Cross-validation fold splitting is not part of this model; no core file contains it.

**Arithmetic**
- `Math.random()` initial values are the parameters `initialUsers` and `initialItems` of the initialisers.
- IEEE-754 doubles and `Math.pow`: the arithmetic is over exact reals, and `Math.pow(x, 2)` is `x * x`. NaN appears only as the one value 0.0 / 0 that the newer trainer can produce. No convergence or error-decrease property is claimed.
- Collaborative.CollaborativeFiltering.CalculateMeanSquareError: the counter is unbounded, so the 32-bit overflow of `numRatings *= 2` beyond 2^30 rated cells is not modelled.

**Structure**
- Recommender.MovieRatingRecommender.UpdateUserLatentFeature and Collaborative.CollaborativeFiltering.UpdateUserLatentFeature: the latent matrices are `array2`, so the Java row aliases `currentUserLatentFeatureVector` and `currentItemLatentFeatureVector` become writes at row userIndex and row itemIndex. Each component is computed by `Sgd.StepComponent`, which is the Java formula.
- Recommender.MovieRatingRecommender.CalculateVectorLengthSqr, CalculatePredictedRating and the Collaborative counterparts take a matrix and row index instead of a row reference.
- Recommender.MovieRatingRecommender.SweepRow, SweepCell and AddRowSquareError, and Collaborative.CollaborativeFiltering.Epoch, SweepRow and AddRowMeanSquareError, are the bodies of the Java nested loops written as methods of their own.
- Recommender.MovieRatingRecommender.TrainMatrixFactorization and Collaborative.CollaborativeFiltering.TrainMatrixFactorization return the number of epochs run. The Java methods keep the count in a local.
- Collaborative.CollaborativeFiltering.constructor allocates the three arrays before calling LoadRatingMatrix and InitializeLatentFeatureVectors. In Java those two methods allocate them.

**Preconditions**
Where Java would throw `ArrayIndexOutOfBoundsException`, the model has preconditions instead:
- For `MovieRatingRecommender`, `LoadTrainingData` requires every triple that passes the 1..10 filter to fit the matrix. That holds when `numUsers >= 10` and `numItems >= 10`.
- The `MovieRatingRecommender` error and training methods require every rated row index to be an item index (`UserIndexedItemsExist`), because of line 59.
- `LoadRatingMatrix` and the `CollaborativeFiltering` constructor require every triple to fit the matrix.
- `Predict` requires the ids of each test triple to be in range.
- Both constructors take `numUsers`, `numItems` and `numLatentFeature` as `nat`. Java accepts any `int` there and throws `NegativeArraySizeException` for a negative size; the model does not capture that error.
- Training data and test data are sequences of `Triple`s rather than `int[][]`. So the `ArrayIndexOutOfBoundsException` thrown for a row with fewer than three entries has no counterpart in the model. `loadRatingMatrix` throws it at CollaborativeFiltering.java lines 137-140 and `predict` at lines 53-56.
