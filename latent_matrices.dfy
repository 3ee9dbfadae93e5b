/** What both trainers' in-place update leaves in their latent matrices. */
module LatentMatrices {
  import opened RatingData
  import opened LatentAlgebra
  import opened Sgd
  import opened Views

  /** Both matrices hold F except user row u and item row j, which hold one
      step of StepComponent with the error err taken from F: the matrices
      then hold the update of cell (u, j) applied to F. */
  lemma StepWritten(users: array2<real>, items: array2<real>, R: seq<seq<int>>, k: nat, F: Factors, u: nat, j: nat, err: real)
    requires users.Length1 == k && items.Length1 == k
    requires |F.users| == users.Length0 && |F.items| == items.Length0 && u < users.Length0 && j < items.Length0
    requires forall p :: 0 <= p < users.Length0 ==> |F.users[p]| == k
    requires forall p :: 0 <= p < items.Length0 ==> |F.items[p]| == k
    requires u < |R| && j < |R[u]| && err == R[u][j] as real - Dot(F.users[u], F.items[j], k)
    requires forall p, f :: 0 <= p < users.Length0 && 0 <= f < k ==>
      users[p, f] == if p == u then StepComponent(F.users[u][f], F.items[j][f], err) else F.users[p][f]
    requires forall p, f :: 0 <= p < items.Length0 && 0 <= f < k ==>
      items[p, f] == if p == j then StepComponent(F.items[j][f], F.users[u][f], err) else F.items[p][f]
    ensures Factors(Grid(users), Grid(items)) == ApplyUpdate(F, R, k, Cell(u, j))
  {
    var user := F.users[u];
    var item := F.items[j];
    StepFrom(user, item, err, k, Row(users, u));
    StepFrom(item, user, err, k, Row(items, j));
    GridIs(users, F.users[u := Step(user, item, err, k)]);
    GridIs(items, F.items[j := Step(item, user, err, k)]);
    assert Fits(F, R, k, Cell(u, j));
  }
}
