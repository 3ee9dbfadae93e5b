/** Rating triples, how they are written into a rating matrix, and which
    cells of a matrix count as observed (a rating above 0). */
module RatingData {

  /** One input line: 1-based user id, 1-based item id, rating. */
  datatype Triple = Triple(user: int, item: int, rating: int)

  /** What a loader checks about the ids of a triple before writing it. */
  datatype IdPolicy =
    | RangeFilter(limit: int)  // write only when both ids lie in 1..limit
    | Unchecked                // write every triple

  predicate Admits(p: IdPolicy, t: Triple)
  {
    match p
    case RangeFilter(limit) => 1 <= t.user <= limit && 1 <= t.item <= limit
    case Unchecked => true
  }

  /** The 0-based cell (user - 1, item - 1) lies inside a numUsers x numItems matrix. */
  predicate InShape(t: Triple, numUsers: nat, numItems: nat)
  {
    1 <= t.user <= numUsers && 1 <= t.item <= numItems
  }

  /** The triple is written to 0-based cell (a, b). */
  predicate Hits(t: Triple, a: int, b: int)
  {
    t.user - 1 == a && t.item - 1 == b
  }

  /** Content of cell (a, b) once the triples of ts[..n] that p admits have been
      written, in order, over a cell that held `base`. */
  function LastWrite(ts: seq<Triple>, n: nat, p: IdPolicy, a: int, b: int, base: int): int
    requires n <= |ts|
  {
    if n == 0 then base
    else if Admits(p, ts[n - 1]) && Hits(ts[n - 1], a, b) then ts[n - 1].rating
    else LastWrite(ts, n - 1, p, a, b, base)
  }

  /** For repeated (user, item) pairs the last admitted triple wins. */
  lemma {:induction false} LastWriteWins(ts: seq<Triple>, n: nat, p: IdPolicy, a: int, b: int, base: int, w: nat)
    requires w < n <= |ts|
    requires Admits(p, ts[w]) && Hits(ts[w], a, b)
    requires forall q :: w < q < n ==> !(Admits(p, ts[q]) && Hits(ts[q], a, b))
    ensures LastWrite(ts, n, p, a, b, base) == ts[w].rating
  {
    if w < n - 1 {
      LastWriteWins(ts, n - 1, p, a, b, base, w);
    }
  }

  /** A cell no admitted triple is written to keeps what it held. */
  lemma {:induction false} UnwrittenKeepsBase(ts: seq<Triple>, n: nat, p: IdPolicy, a: int, b: int, base: int)
    requires n <= |ts|
    requires forall q :: 0 <= q < n ==> !(Admits(p, ts[q]) && Hits(ts[q], a, b))
    ensures LastWrite(ts, n, p, a, b, base) == base
  {
    if n > 0 {
      UnwrittenKeepsBase(ts, n - 1, p, a, b, base);
    }
  }

  /** A cell changes only through an admitted triple written to it: every
      rating it ends with is the rating of such a triple. */
  lemma {:induction false} LastWriteSource(ts: seq<Triple>, n: nat, p: IdPolicy, a: int, b: int, base: int)
    requires n <= |ts|
    ensures LastWrite(ts, n, p, a, b, base) == base
         || exists q :: 0 <= q < n && Admits(p, ts[q]) && Hits(ts[q], a, b) && ts[q].rating == LastWrite(ts, n, p, a, b, base)
  {
    if n > 0 && !(Admits(p, ts[n - 1]) && Hits(ts[n - 1], a, b)) {
      LastWriteSource(ts, n - 1, p, a, b, base);
    }
  }

  /** A 0-based matrix cell. */
  datatype Cell = Cell(user: nat, item: nat)

  /** Every row of R has numItems columns. */
  predicate IsGrid(R: seq<seq<int>>, numItems: nat)
  {
    forall i :: 0 <= i < |R| ==> |R[i]| == numItems
  }

  /** The sentinel 0 (or anything not above 0) marks an unobserved cell. */
  predicate Observed(R: seq<seq<int>>, c: Cell)
  {
    c.user < |R| && c.item < |R[c.user]| && R[c.user][c.item] > 0
  }

  predicate RowMajorBefore(c: Cell, d: Cell)
  {
    c.user < d.user || (c.user == d.user && c.item < d.item)
  }

  predicate StrictlyRowMajor(cs: seq<Cell>)
  {
    forall p, q :: 0 <= p < q < |cs| ==> RowMajorBefore(cs[p], cs[q])
  }

  /** Observed cells (i, c) with c < j, by increasing column. */
  function RowCells(R: seq<seq<int>>, i: nat, j: nat): seq<Cell>
  {
    if j == 0 then []
    else RowCells(R, i, j - 1) + (if Observed(R, Cell(i, j - 1)) then [Cell(i, j - 1)] else [])
  }

  /** Observed cells of rows 0..i-1 and columns 0..numItems-1, in row-major order. */
  function GridCells(R: seq<seq<int>>, numItems: nat, i: nat): seq<Cell>
  {
    if i == 0 then [] else GridCells(R, numItems, i - 1) + RowCells(R, i - 1, numItems)
  }

  /** Every observed cell of R, in the order a row-major sweep meets them. */
  function ObservedCells(R: seq<seq<int>>, numItems: nat): seq<Cell>
  {
    GridCells(R, numItems, |R|)
  }

  lemma {:induction false} RowCellsExact(R: seq<seq<int>>, i: nat, j: nat)
    ensures StrictlyRowMajor(RowCells(R, i, j))
    ensures forall c :: c in RowCells(R, i, j) <==> (Observed(R, c) && c.user == i && c.item < j)
  {
    if j > 0 {
      RowCellsExact(R, i, j - 1);
      var prev := RowCells(R, i, j - 1);
      assert forall c :: c in prev ==> c.user == i && c.item < j - 1;
    }
  }

  /** Two row-major runs, every cell of the first in an earlier row than every
      cell of the second, make one row-major run. */
  lemma StrictlyRowMajorAppend(a: seq<Cell>, b: seq<Cell>)
    requires StrictlyRowMajor(a) && StrictlyRowMajor(b)
    requires forall c, d :: c in a && d in b ==> c.user < d.user
    ensures StrictlyRowMajor(a + b)
  {
    forall p, q | 0 <= p < q < |a + b|
      ensures RowMajorBefore((a + b)[p], (a + b)[q])
    {
      if q < |a| {
        assert (a + b)[p] == a[p] && (a + b)[q] == a[q];
      } else if p >= |a| {
        assert (a + b)[p] == b[p - |a|];
        assert (a + b)[q] == b[q - |a|];
      } else {
        assert (a + b)[p] in a;
        assert (a + b)[q] in b;
      }
    }
  }

  lemma StrictlyRowMajorPrefix(cs: seq<Cell>, n: nat)
    requires StrictlyRowMajor(cs) && n <= |cs|
    ensures StrictlyRowMajor(cs[..n])
  {
    forall p, q | 0 <= p < q < n
      ensures RowMajorBefore(cs[..n][p], cs[..n][q])
    {
      assert cs[..n][p] == cs[p] && cs[..n][q] == cs[q];
    }
  }

  lemma {:induction false} GridCellsExact(R: seq<seq<int>>, numItems: nat, i: nat)
    ensures StrictlyRowMajor(GridCells(R, numItems, i))
    ensures forall c :: c in GridCells(R, numItems, i) <==> (Observed(R, c) && c.user < i && c.item < numItems)
  {
    if i > 0 {
      GridCellsExact(R, numItems, i - 1);
      RowCellsExact(R, i - 1, numItems);
      StrictlyRowMajorAppend(GridCells(R, numItems, i - 1), RowCells(R, i - 1, numItems));
    }
  }

  /** The cells ObservedCells lists are exactly the observed cells, each once,
      strictly in row-major order. */
  lemma ObservedCellsExact(R: seq<seq<int>>, numItems: nat)
    requires IsGrid(R, numItems)
    ensures StrictlyRowMajor(ObservedCells(R, numItems))
    ensures forall c :: c in ObservedCells(R, numItems) <==> Observed(R, c)
  {
    GridCellsExact(R, numItems, |R|);
  }

  /** Number of observed cells of R. */
  function ObservedCount(R: seq<seq<int>>, numItems: nat): nat
  {
    |ObservedCells(R, numItems)|
  }

  /** ObservedCount is 0 exactly when no cell of R holds a rating above 0. */
  lemma ObservedCountZero(R: seq<seq<int>>, numItems: nat)
    requires IsGrid(R, numItems)
    ensures ObservedCount(R, numItems) == 0 <==> forall c :: !Observed(R, c)
  {
    ObservedCellsExact(R, numItems);
    if ObservedCount(R, numItems) > 0 {
      assert ObservedCells(R, numItems)[0] in ObservedCells(R, numItems);
    }
  }
}
