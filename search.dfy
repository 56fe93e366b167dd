/**
 * First-match searches in the order Rust's `iter().position` and nested
 * `for … enumerate()` loops with an early `return` visit elements: along a
 * sequence, and row-major through two or three nesting levels.
 */
module Search {
  import opened Wrappers

  /** `iter().position(p)`. */
  function FirstIndex<T>(s: seq<T>, p: T -> bool): (r: Option<nat>)
    ensures r.None? <==> forall i :: 0 <= i < |s| ==> !p(s[i])
    ensures r.Some? ==> r.value < |s| && p(s[r.value])
                        && forall i :: 0 <= i < r.value ==> !p(s[i])
  {
    if |s| == 0 then None
    else if p(s[0]) then Some(0)
    else
      match FirstIndex(s[1..], p)
      case None => None
      case Some(i) => Some(i + 1)
  }

  /** `(i, j)` comes strictly before `(k, l)` in row-major order. */
  predicate Before2(i: nat, j: nat, k: nat, l: nat) {
    i < k || (i == k && j < l)
  }

  /** The first `(i, j)` with `p(rows[i][j])`, rows in order, each row in order. */
  function FirstIn2<T>(rows: seq<seq<T>>, p: T -> bool): (r: Option<(nat, nat)>)
    ensures r.None? <==>
      forall i, j :: 0 <= i < |rows| && 0 <= j < |rows[i]| ==> !p(rows[i][j])
    ensures r.Some? ==>
      var (i, j) := r.value;
      i < |rows| && j < |rows[i]| && p(rows[i][j])
      && forall k, l :: 0 <= k < |rows| && 0 <= l < |rows[k]| && Before2(k, l, i, j)
                        ==> !p(rows[k][l])
  {
    if |rows| == 0 then None
    else
      match FirstIndex(rows[0], p)
      case Some(j) => Some((0, j))
      case None =>
        match FirstIn2(rows[1..], p)
        case None =>
          assert forall i, j :: 1 <= i < |rows| && 0 <= j < |rows[i]| ==>
            rows[i][j] == rows[1..][i - 1][j];
          None
        case Some((i, j)) =>
          assert forall k, l :: 1 <= k < |rows| && 0 <= l < |rows[k]| ==>
            rows[k][l] == rows[1..][k - 1][l];
          Some((i + 1, j))
  }

  /** `(i, j, k)` comes strictly before `(a, b, c)` in row-major order. */
  predicate Before3(i: nat, j: nat, k: nat, a: nat, b: nat, c: nat) {
    i < a || (i == a && (j < b || (j == b && k < c)))
  }

  /** The first `(i, j, k)` with `p(cube[i][j][k])` in row-major order. */
  function FirstIn3<T>(cube: seq<seq<seq<T>>>, p: T -> bool): (r: Option<(nat, nat, nat)>)
    ensures r.None? <==>
      forall i, j, k :: 0 <= i < |cube| && 0 <= j < |cube[i]| && 0 <= k < |cube[i][j]|
                        ==> !p(cube[i][j][k])
    ensures r.Some? ==>
      var (i, j, k) := r.value;
      i < |cube| && j < |cube[i]| && k < |cube[i][j]| && p(cube[i][j][k])
      && forall a, b, c ::
           (0 <= a < |cube| && 0 <= b < |cube[a]| && 0 <= c < |cube[a][b]|
            && Before3(a, b, c, i, j, k)) ==> !p(cube[a][b][c])
  {
    if |cube| == 0 then None
    else
      match FirstIn2(cube[0], p)
      case Some((j, k)) => Some((0, j, k))
      case None =>
        match FirstIn3(cube[1..], p)
        case None =>
          assert forall i, j, k ::
            (1 <= i < |cube| && 0 <= j < |cube[i]| && 0 <= k < |cube[i][j]|)
            ==> cube[i][j][k] == cube[1..][i - 1][j][k];
          None
        case Some((i, j, k)) =>
          assert forall a, b, c ::
            (1 <= a < |cube| && 0 <= b < |cube[a]| && 0 <= c < |cube[a][b]|)
            ==> cube[a][b][c] == cube[1..][a - 1][b][c];
          Some((i + 1, j, k))
  }
}
