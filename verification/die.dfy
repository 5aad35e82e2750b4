/**
 * The `Die` class: a table of faces with one weight per face, a weight
 * update that reports instead of raising, and weighted rolls.
 */
module Dice {
  import opened Wrappers
  import opened Sampling

  /** What Python's `float(new_weight)` does with the argument given to `change_weight`. */
  datatype FloatConversion = Converted(value: real) | RaisesValueError | RaisesTypeError

  /** What `change_weight` reports; `TypeErrorRaised` is an exception `change_weight` does not catch. */
  datatype WeightChange = Changed(weight: real) | Rejected(message: string) | TypeErrorRaised

  const NotAFloatMessage: string := "Error: The new weight isn't a float"
  const FaceNotFoundMessage: string := "Error: The face value you passed couldn't be found"

  /**
   * Why `random.choices` refuses to draw: an empty table (an `IndexError` on
   * the cumulative weights) or a total weight that is not positive (a
   * `ValueError`).
   */
  datatype RollError = EmptyFaces | NoPositiveTotal

  /** A die's face/weight table, as a value. */
  datatype Table<F> = Table(faces: seq<F>, weights: seq<real>)

  predicate WellFormed<F>(t: Table<F>) {
    |t.weights| == |t.faces|
  }

  /** `random.choices` can draw from the table. */
  predicate Rollable<F>(t: Table<F>) {
    |t.faces| > 0 && Sum(t.weights) > 0.0
  }

  function RollFailure<F>(t: Table<F>): (e: RollError) {
    if |t.faces| == 0 then EmptyFaces else NoPositiveTotal
  }

  /** The face `random.choices(faces, weights, k=1)[0]` draws when `random()` gives `u`. */
  function Roll<F>(t: Table<F>, u: real): (f: F)
    requires WellFormed(t) && Rollable(t)
    ensures f in t.faces
  {
    t.faces[Choose(t.weights, u)]
  }

  /** The faces drawn with the variates `us`, one draw per variate. */
  function Draws<F>(t: Table<F>, us: seq<real>): (fs: seq<F>)
    requires WellFormed(t) && Rollable(t)
    ensures |fs| == |us| && forall k :: 0 <= k < |us| ==> fs[k] == Roll(t, us[k])
  {
    if us == [] then [] else Draws(t, us[..|us| - 1]) + [Roll(t, us[|us| - 1])]
  }

  /**
   * Once every row of `face` weighs zero (what `ChangeWeight(face,
   * Converted(0.0))` leaves behind), no roll shows `face`, whatever the
   * other weights are as long as `random.choices` accepts the table.
   */
  lemma ZeroWeightFaceNeverRolled<F>(t: Table<F>, face: F, u: real)
    requires WellFormed(t) && Rollable(t) && Unit(u)
    requires forall i :: 0 <= i < |t.faces| && t.faces[i] == face ==> t.weights[i] == 0.0
    ensures Roll(t, u) != face
  {
    ChosenWeightPositive(t.weights, u);
  }

  /**
   * With non-negative weights, a roll shows the face of row `i` exactly when
   * `u` scaled by the total falls in row `i`'s cumulative interval, whose
   * length is row `i`'s weight.
   */
  lemma RollInterval<F>(t: Table<F>, u: real, i: nat)
    requires WellFormed(t) && Rollable(t) && NonNegative(t.weights) && Unit(u) && i < |t.faces|
    ensures Choose(t.weights, u) == i <==>
      Sum(t.weights[..i]) <= Scale(u, Sum(t.weights)) < Sum(t.weights[..i]) + t.weights[i]
  {
    ChooseInterval(t.weights, u, i);
    SumStep(t.weights, i);
  }

  /**
   * The loop of `roll_die(times)` on a face/weight table: `times` draws, one
   * variate of `us` each, the unused variates returned in `rest`.  A table
   * `random.choices` refuses fails before any variate is used; no roll at
   * all (`times <= 0`) never fails.
   */
  method RollTable<F>(t: Table<F>, times: int, us: seq<real>) returns (r: Result<seq<F>, RollError>, rest: seq<real>)
    requires WellFormed(t) && |us| >= times
    ensures times <= 0 ==> r == Success([]) && rest == us
    ensures times > 0 && !Rollable(t) ==> r == Failure(RollFailure(t)) && rest == us
    ensures times > 0 && Rollable(t) ==> r == Success(Draws(t, us[..times])) && rest == us[times..]
    ensures r.Success? ==>
      |r.value| == (if times > 0 then times else 0) && forall k :: 0 <= k < |r.value| ==> r.value[k] in t.faces
  {
    var outcomes: seq<F> := [];
    rest := us;
    var i := 0;
    while i < times
      invariant 0 <= i <= |us| && (i == 0 || i <= times)
      invariant rest == us[i..]
      invariant i == 0 ==> outcomes == []
      invariant i > 0 ==> Rollable(t) && outcomes == Draws(t, us[..i])
    {
      if |t.faces| == 0 {
        return Failure(EmptyFaces), us;
      }
      if Sum(t.weights) <= 0.0 {
        return Failure(NoPositiveTotal), us;
      }
      var u := rest[0];
      rest := rest[1..];
      outcomes := outcomes + [t.faces[Choose(t.weights, u)]];
      i := i + 1;
    }
    r := Success(outcomes);
  }

  class Die<F(==)> {
    const faces: seq<F>
    var weights: seq<real>

    ghost predicate Valid()
      reads this
    {
      |weights| == |faces|
    }

    function Snapshot(): (t: Table<F>)
      reads this
      ensures t.faces == faces && t.weights == weights
    {
      Table(faces, weights)
    }

    /** Every face starts with weight 1.0, in the order given. */
    constructor (faces: seq<F>)
      ensures Valid() && this.faces == faces
      ensures |weights| == |faces| && forall i :: 0 <= i < |faces| ==> weights[i] == 1.0
    {
      this.faces := faces;
      weights := seq(|faces|, _ => 1.0);
    }

    /**
     * `change_weight`: an unknown face is reported first; for a known face a
     * weight `float()` refuses is reported, and a parsed weight overwrites
     * every row of that face.
     */
    method ChangeWeight(face: F, newWeight: FloatConversion) returns (outcome: WeightChange)
      requires Valid()
      modifies this`weights
      ensures Valid() && |weights| == |old(weights)|
      ensures face !in faces ==> outcome == Rejected(FaceNotFoundMessage) && weights == old(weights)
      ensures face in faces && newWeight == RaisesValueError ==>
        outcome == Rejected(NotAFloatMessage) && weights == old(weights)
      ensures face in faces && newWeight == RaisesTypeError ==>
        outcome == TypeErrorRaised && weights == old(weights)
      ensures face in faces && newWeight.Converted? ==>
        && outcome == Changed(newWeight.value)
        && (forall i :: 0 <= i < |faces| && faces[i] == face ==> weights[i] == newWeight.value)
        && (forall i :: 0 <= i < |faces| && faces[i] != face ==> weights[i] == old(weights)[i])
    {
      if face in faces {
        match newWeight
        case Converted(w) =>
          var was := weights;
          weights := seq(|was|, i requires 0 <= i < |was| => if faces[i] == face then w else was[i]);
          outcome := Changed(w);
        case RaisesValueError =>
          outcome := Rejected(NotAFloatMessage);
        case RaisesTypeError =>
          outcome := TypeErrorRaised;
      } else {
        outcome := Rejected(FaceNotFoundMessage);
      }
    }

    /** `roll_die(times)`: the die's current table rolled `times` times; the die is not touched. */
    method RollDie(times: int, us: seq<real>) returns (r: Result<seq<F>, RollError>, rest: seq<real>)
      requires Valid() && |us| >= times
      ensures times <= 0 ==> r == Success([]) && rest == us
      ensures times > 0 && !Rollable(Snapshot()) ==> r == Failure(RollFailure(Snapshot())) && rest == us
      ensures times > 0 && Rollable(Snapshot()) ==>
        r == Success(Draws(Snapshot(), us[..times])) && rest == us[times..]
    {
      r, rest := RollTable(Snapshot(), times, us);
    }
  }
}
