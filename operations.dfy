/**
 * The free functions `compose` and `map`.
 *
 * `compose(t1, ..., tn)` folds `composeWith` from the left, starting from the
 * identity: `identity.composeWith(t1).composeWith(t2)...composeWith(tn)`.
 * Because `a.composeWith(b)` applies `b` first, the composed transformation
 * applies `tn` first and `t1` last: `t1(t2(...tn(v)))`.
 */
module Operations {
  import opened Types
  import opened Math
  import opened Transforms

  /** The fold of `compose`: `acc.composeWith(ts[0]).composeWith(ts[1])...`. */
  function Reduce(acc: Transform, ts: seq<Transform>): Transform
    decreases |ts|
  {
    if ts == [] then acc else Reduce(acc.ComposeWith(ts[0].AsGeoMatrix()), ts[1..])
  }

  /** `compose(...tlist)`: the fold started from a new identity transformation. */
  function Compose(ts: seq<Transform>): Transform
  {
    Reduce(Identity(), ts)
  }

  /** The tuple `t1(t2(...tn(v)))`: every direct matrix applied, the last one first. */
  function Chain(ts: seq<Transform>, v: HCoords): HCoords
    decreases |ts|
  {
    if ts == [] then v else Apply(ts[0].directMatrix, Chain(ts[1..], v))
  }

  /** The inverses of `ts`, in the opposite order: `tn^-1, ..., t1^-1`. */
  function InvertedReversed(ts: seq<Transform>): (r: seq<Transform>)
    ensures |r| == |ts|
    ensures forall k :: 0 <= k < |ts| ==> r[k] == ts[|ts| - 1 - k].Inverte()
  {
    if ts == [] then [] else InvertedReversed(ts[1..]) + [ts[0].Inverte()]
  }

  /** `map(t, o)`: exactly the object's own `o.map(t)`, whatever kind of object `o` is. */
  function Map<T>(objectMap: (T, GeoMatrix) -> T, t: GeoMatrix, o: T): T
  {
    objectMap(o, t)
  }

  /** The curried form `map(t)`, waiting for the object. */
  function MapOf<T>(objectMap: (T, GeoMatrix) -> T, t: GeoMatrix): T -> T
  {
    o => Map(objectMap, t, o)
  }

  /** `map(t)(o)`, `map(t, o)` and `o.map(t)` are the same value. */
  lemma MapCurried<T>(objectMap: (T, GeoMatrix) -> T, t: GeoMatrix, o: T)
    ensures MapOf(objectMap, t)(o) == Map(objectMap, t, o) == objectMap(o, t)
  {
  }

  /** `compose()` is the identity transformation, direct and inverse. */
  lemma ComposeEmpty()
    ensures Compose([]).directMatrix == IdentityMatrix()
    ensures Compose([]).inverseMatrix == IdentityMatrix()
  {
  }

  /** `compose(t)` has exactly the matrices of `t`. */
  lemma ComposeSingle(t: Transform)
    ensures Compose([t]) == t
  {
    assert [t][1..] == [];
    assert Compose([t]) == Reduce(Identity().ComposeWith(t.AsGeoMatrix()), []);
    ComposeWithIdentity(t);
  }

  /** Folding one more transformation is one more `composeWith`. */
  lemma {:induction false} ReduceSnoc(acc: Transform, ts: seq<Transform>, t: Transform)
    ensures Reduce(acc, ts + [t]) == Reduce(acc, ts).ComposeWith(t.AsGeoMatrix())
    decreases |ts|
  {
    if ts == [] {
      assert (ts + [t])[1..] == [];
    } else {
      assert (ts + [t])[1..] == ts[1..] + [t];
      ReduceSnoc(acc.ComposeWith(ts[0].AsGeoMatrix()), ts[1..], t);
    }
  }

  /** `compose(t1, ..., tn, t) == compose(t1, ..., tn).composeWith(t)`: a left fold. */
  lemma ComposeSnoc(ts: seq<Transform>, t: Transform)
    ensures Compose(ts + [t]) == Compose(ts).ComposeWith(t.AsGeoMatrix())
  {
    ReduceSnoc(Identity(), ts, t);
  }

  /** If every argument keeps direct times inverse equal to the identity, so does `compose`. */
  lemma {:induction false} ComposeValid(ts: seq<Transform>)
    requires forall k :: 0 <= k < |ts| ==> ts[k].Valid()
    ensures Compose(ts).Valid()
    decreases |ts|
  {
    if ts == [] {
      IdentityValid();
    } else {
      var init, last := ts[..|ts| - 1], ts[|ts| - 1];
      assert ts == init + [last];
      ComposeValid(init);
      ComposeSnoc(init, last);
      ComposeWithValid(Compose(init), last);
    }
  }

  /** The fold applies the elements, last first, and then the start. */
  lemma {:induction false} ReduceApply(acc: Transform, ts: seq<Transform>, v: HCoords)
    ensures Apply(Reduce(acc, ts).directMatrix, v) == Apply(acc.directMatrix, Chain(ts, v))
    decreases |ts|
  {
    if ts != [] {
      var next := acc.ComposeWith(ts[0].AsGeoMatrix());
      ReduceApply(next, ts[1..], v);
      ComposeWithApply(acc, ts[0], Chain(ts[1..], v));
    }
  }

  /** `compose(t1, ..., tn)` maps `v` to `t1(t2(...tn(v)))`. */
  lemma ComposeApply(ts: seq<Transform>, v: HCoords)
    ensures Apply(Compose(ts).directMatrix, v) == Chain(ts, v)
  {
    ReduceApply(Identity(), ts, v);
    ApplyIdentity(Chain(ts, v));
  }

  /** With two arguments the second is applied first: `compose(t1, t2)` is `t1(t2(v))`. */
  lemma ComposeTwoApply(t1: Transform, t2: Transform, v: HCoords)
    ensures Apply(Compose([t1, t2]).directMatrix, v) == Apply(t1.directMatrix, Apply(t2.directMatrix, v))
  {
    ComposeApply([t1, t2], v);
    assert [t1, t2][1..] == [t2];
    assert [t2][1..] == [];
    assert Chain([t2], v) == Apply(t2.directMatrix, v);
  }

  /** The inverse matrix of the fold: the start's inverse is applied first. */
  lemma {:induction false} ReduceInverse(acc: Transform, ts: seq<Transform>)
    ensures Reduce(acc, ts).inverseMatrix == Mul(acc.inverseMatrix, Compose(ts).inverseMatrix)
    decreases |ts|
  {
    if ts == [] {
      MulIdentity(acc.inverseMatrix);
    } else {
      var t := ts[0];
      var next := acc.ComposeWith(t.AsGeoMatrix());
      ReduceInverse(next, ts[1..]);
      ReduceInverse(t, ts[1..]);
      assert Compose(ts) == Reduce(Identity().ComposeWith(t.AsGeoMatrix()), ts[1..]);
      ComposeWithIdentity(t);
      MulAssociative(acc.inverseMatrix, t.inverseMatrix, Compose(ts[1..]).inverseMatrix);
    }
  }

  /** The inverse of `compose(t1, ..., tn)` is the direct matrix of `compose(tn^-1, ..., t1^-1)`. */
  lemma {:induction false} ComposeInverse(ts: seq<Transform>)
    ensures Compose(ts).inverseMatrix == Compose(InvertedReversed(ts)).directMatrix
    decreases |ts|
  {
    if ts == [] {
    } else {
      var t, rest := ts[0], ts[1..];
      ComposeWithIdentity(t);
      calc {
        Compose(ts).inverseMatrix;
        Reduce(t, rest).inverseMatrix;
        { ReduceInverse(t, rest); }
        Mul(t.inverseMatrix, Compose(rest).inverseMatrix);
        { ComposeInverse(rest); }
        Mul(t.inverseMatrix, Compose(InvertedReversed(rest)).directMatrix);
        { ComposeSnoc(InvertedReversed(rest), t.Inverte()); }
        Compose(InvertedReversed(rest) + [t.Inverte()]).directMatrix;
      }
    }
  }
}
