/** The Java matrices as Dafny heap objects and their contents as values.
    Every matrix of the trainers (`int[][]` ratings, `double[][]` latent
    vectors) is allocated rectangular and never has a row replaced, so each
    is a two-dimensional array. */
module Views {

  /** Columns 0..n-1 of row i of a, as a sequence. */
  ghost function RowPrefix<T>(a: array2<T>, i: nat, n: nat): (r: seq<T>)
    requires i < a.Length0 && n <= a.Length1
    reads a
    ensures |r| == n
    ensures forall j :: 0 <= j < n ==> r[j] == a[i, j]
  {
    if n == 0 then [] else RowPrefix(a, i, n - 1) + [a[i, n - 1]]
  }

  /** Row i of a, as a sequence. */
  ghost function Row<T>(a: array2<T>, i: nat): (r: seq<T>)
    requires i < a.Length0
    reads a
    ensures |r| == a.Length1
    ensures forall j :: 0 <= j < a.Length1 ==> r[j] == a[i, j]
  {
    RowPrefix(a, i, a.Length1)
  }

  /** Rows 0..n-1 of a. */
  ghost function GridPrefix<T>(a: array2<T>, n: nat): (g: seq<seq<T>>)
    requires n <= a.Length0
    reads a
    ensures |g| == n
    ensures forall i :: 0 <= i < n ==> g[i] == Row(a, i)
  {
    if n == 0 then [] else GridPrefix(a, n - 1) + [Row(a, n - 1)]
  }

  /** Contents of a, row by row. */
  ghost function Grid<T>(a: array2<T>): (g: seq<seq<T>>)
    reads a
    ensures |g| == a.Length0
    ensures forall i :: 0 <= i < a.Length0 ==> g[i] == Row(a, i)
  {
    GridPrefix(a, a.Length0)
  }

  /** a holds g, cell by cell. */
  lemma GridIs<T>(a: array2<T>, g: seq<seq<T>>)
    requires |g| == a.Length0 && forall p :: 0 <= p < |g| ==> |g[p]| == a.Length1
    requires forall p, f :: 0 <= p < a.Length0 && 0 <= f < a.Length1 ==> a[p, f] == g[p][f]
    ensures Grid(a) == g
  {
    forall p | 0 <= p < a.Length0
      ensures Row(a, p) == g[p]
    {
    }
  }
}
