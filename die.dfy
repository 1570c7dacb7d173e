/** A die: an ordered list of faces, a parallel list of weights, and weighted draws. */
module Dice {
  import opened Wrappers
  import opened Values

  /** The weight every face starts with. */
  const DefaultWeight: real := 1.0

  /** The first position of `face` in `faces`: the row that a weight update targets. */
  function FirstIndex(faces: seq<Value>, face: Value): (k: nat)
    requires face in faces
    ensures k < |faces| && faces[k] == face
    ensures forall j :: 0 <= j < k ==> faces[j] != face
  {
    if faces[0] == face then 0 else 1 + FirstIndex(faces[1..], face)
  }

  /** The sum of the weights, accumulated from the first to the last. */
  function Total(weights: seq<real>): (t: real)
  {
    if weights == [] then 0.0 else weights[0] + Total(weights[1..])
  }

  /** Non-negative weights have a non-negative total. */
  lemma {:induction false} TotalNonNegative(weights: seq<real>)
    requires forall i :: 0 <= i < |weights| ==> weights[i] >= 0.0
    ensures Total(weights) >= 0.0
  {
    if weights != [] {
      TotalNonNegative(weights[1..]);
    }
  }

  /** Positive weights, at least one of them, have a positive total. */
  lemma {:induction false} TotalPositive(weights: seq<real>)
    requires weights != [] && forall i :: 0 <= i < |weights| ==> weights[i] > 0.0
    ensures Total(weights) > 0.0
  {
    if |weights| > 1 {
      TotalPositive(weights[1..]);
    }
  }

  /** `n` default weights sum to `n`: a new die with faces can always be rolled. */
  lemma {:induction false} TotalOfDefaults(n: nat)
    ensures Total(seq(n, _ => DefaultWeight)) == n as real
  {
    if n > 0 {
      TotalOfDefaults(n - 1);
      assert seq(n, _ => DefaultWeight)[1..] == seq(n - 1, _ => DefaultWeight);
    }
  }

  /** Changing one weight changes the total by the difference. */
  lemma {:induction false} TotalUpdate(weights: seq<real>, k: nat, x: real)
    requires k < |weights|
    ensures Total(weights[k := x]) == Total(weights) - weights[k] + x
  {
    if k > 0 {
      TotalUpdate(weights[1..], k - 1, x);
      assert weights[k := x][1..] == weights[1..][k - 1 := x];
    } else {
      assert weights[k := x][1..] == weights[1..];
    }
  }

  class Die {
    /** The faces, in the order given at construction; they never change. */
    const faces: seq<Value>
    /** One weight per face, at the same position. */
    var weights: seq<real>

    ghost predicate Valid()
      reads this
    {
      |weights| == |faces|
    }

    /** A die whose every face has the default weight. */
    constructor (faces: seq<Value>)
      ensures Valid()
      ensures this.faces == faces
      ensures forall i :: 0 <= i < |weights| ==> weights[i] == DefaultWeight
    {
      this.faces := faces;
      weights := seq(|faces|, _ => DefaultWeight);
    }

    /**
     * Sets the weight of the first face equal to `face`. The face is checked first, then the
     * weight; both checks happen before anything changes.
     */
    method UpdateWeight(face: Value, newWeight: Value) returns (r: Outcome<Error>)
      requires Valid()
      modifies this
      ensures Valid()
      ensures face !in faces ==> r == Fail(FaceNotFound(face, faces)) && weights == old(weights)
      ensures face in faces && !newWeight.Number? ==>
                r == Fail(NotANumber(newWeight)) && weights == old(weights)
      ensures face in faces && newWeight.Number? ==>
                r == Pass && weights == old(weights)[FirstIndex(faces, face) := newWeight.number]
    {
      if face !in faces {
        return Fail(FaceNotFound(face, faces));
      }
      if !newWeight.Number? {
        return Fail(NotANumber(newWeight));
      }
      var index := FirstIndex(faces, face);
      weights := weights[index := newWeight.number];
      r := Pass;
    }

    /**
     * The error that drawing `times` faces raises, if any. No draw happens when `times`
     * is not positive; otherwise a die without faces, or whose weights do not sum to a
     * positive number, cannot be drawn from.
     */
    function DrawFailure(times: int): (e: Option<Error>)
      reads this
      ensures e.None? <==> times <= 0 || (faces != [] && Total(weights) > 0.0)
    {
      if RangeLength(times) == 0 then None
      else if faces == [] then Some(EmptyPopulation)
      else if Total(weights) <= 0.0 then Some(WeightsNotPositive(Total(weights)))
      else None
    }

    /**
     * Draws a face `times` times. Which face each draw yields is left open: only that it is
     * one of this die's faces.
     */
    method Roll(times: int := 1) returns (r: Result<seq<Value>, Error>)
      ensures DrawFailure(times).Some? ==> r == Failure(DrawFailure(times).value)
      ensures DrawFailure(times).None? ==> r.Success? && |r.value| == RangeLength(times)
      ensures r.Success? ==> forall i :: 0 <= i < |r.value| ==> r.value[i] in faces
    {
      var n := RangeLength(times);
      var failure := DrawFailure(times);
      if failure.Some? {
        return Failure(failure.value);
      }
      var draws: seq<Value> := [];
      for i := 0 to n
        invariant |draws| == i
        invariant forall j :: 0 <= j < i ==> draws[j] in faces
      {
        var k :| 0 <= k < |faces|;
        draws := draws + [faces[k]];
      }
      r := Success(draws);
    }

    /** The current faces and weights, one row per face. */
    function Show(): (rows: seq<(Value, real)>)
      requires Valid()
      reads this
      ensures |rows| == |faces|
      ensures forall i :: 0 <= i < |rows| ==> rows[i].0 == faces[i] && rows[i].1 == weights[i]
    {
      var w := weights;
      seq(|faces|, i requires 0 <= i < |faces| == |w| => (faces[i], w[i]))
    }
  }
}
