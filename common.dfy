/** Identifiers, optional values and constants shared by the map-voting engine. */
module Common {

  /** A player's UUID; the engine only compares ids for equality. */
  type Uuid = int

  /** A map of the rotation (MapInfo); the engine only compares maps for equality. */
  type MapInfo = int

  datatype Option<+T> = None | Some(value: T)

  datatype Result<+T, +E> = Success(value: T) | Failure(error: E)

  /** The positive reals that can stand for Double.MIN_VALUE (about 4.9e-324, far below 1/2). */
  type Epsilon = r: real | 0.0 < r <= 0.5 witness 0.5

  /** Double.MIN_VALUE, the smallest positive double: a fixed but unspecified positive constant. */
  const EPS: Epsilon

  function Max(a: real, b: real): real { if a >= b then a else b }

  function Min(a: real, b: real): real { if a <= b then a else b }

  /** A non-empty set of ids has an element to pick. */
  lemma NonEmptyHasElement(s: set<int>)
    requires s != {}
    ensures exists x :: x in s
  {
    if forall x :: x !in s {
      assert false;
    }
  }

  /** No element occurs twice. */
  predicate Distinct<T(==)>(s: seq<T>) {
    forall i, j :: 0 <= i < j < |s| ==> s[i] != s[j]
  }
}
