/** Values that faces and weight arguments can take, and the errors the core raises. */
module Values {

  /**
   * A face of a die, or any other argument typed `str | float`.
   * Numbers compare by value, as in Python, where `1 == 1.0`.
   */
  datatype Value = Text(text: string) | Number(number: real)

  /** The kind of a face value: what `type(...)` distinguishes at the level of this model. */
  datatype Kind = TextKind | NumberKind

  function KindOf(v: Value): (k: Kind)
    ensures k == TextKind <==> v.Text?
  {
    match v
    case Text(_) => TextKind
    case Number(_) => NumberKind
  }

  /** Every way an operation of the core can fail. */
  datatype Error =
    | FaceNotFound(face: Value, faces: seq<Value>)  // update_weight: unknown face
    | NotANumber(weight: Value)                     // update_weight: weight is not a number
    | EmptyPopulation                               // a draw from a die with no faces
    | WeightsNotPositive(total: real)               // a draw whose weights sum to <= 0
    | BadDisplay(display: string)                   // show: neither "wide" nor "narrow"
    | NotPlayed                                     // show before any play: no columns yet
    | NoDice                                        // an analyzer over a game with no dice
    | NoFirstFace                                   // the first die has no face to inspect

  /** The length of Python's `range(times)`: negative counts give an empty range. */
  function RangeLength(times: int): (n: nat)
    ensures times >= 0 ==> n == times
    ensures times < 0 ==> n == 0
  {
    if times < 0 then 0 else times
  }
}
