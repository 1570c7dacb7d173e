/** A game: a fixed list of dice, rolled together, and the table of its latest play. */
module Games {
  import opened Wrappers
  import opened Values
  import opened Dice
  import opened Tables
  import Counting

  /** What `show` returns: the long table keyed by (roll, die), or its pivot by die number. */
  datatype View = NarrowView(rows: seq<Row>) | WideView(cells: Wide)

  class Game {
    /** The dice, in the order given; the list never changes. */
    const dice: seq<Die>
    /** The table of the latest play; `None` before the first one, when there are no columns. */
    var table: Option<seq<Row>>
    /** How many times the dice were rolled in the latest play. */
    ghost var rolls: nat

    /** A stored table is a die-major play table whose faces come from the right die. */
    ghost predicate Valid()
      reads this
    {
      table.Some? ==>
        && IsPlayTable(table.value, |dice|, rolls)
        && forall i :: 0 <= i < |table.value| ==>
             table.value[i].die < |dice| && table.value[i].face in dice[table.value[i].die].faces
    }

    constructor (dice: seq<Die>)
      ensures Valid()
      ensures this.dice == dice && table == None
    {
      this.dice := dice;
      table := None;
      rolls := 0;
    }

    /**
     * Rolls every die `times` times, die after die, and concatenates the results. The first
     * die that cannot be drawn from ends the loop with its error.
     */
    method RollDice(times: int) returns (r: Result<seq<Value>, Error>)
      ensures r.Success? <==> forall d :: 0 <= d < |dice| ==> dice[d].DrawFailure(times).None?
      ensures r.Failure? ==>
                exists d :: 0 <= d < |dice| && dice[d].DrawFailure(times) == Some(r.error)
                            && forall e :: 0 <= e < d ==> dice[e].DrawFailure(times).None?
      ensures r.Success? ==> |r.value| == |dice| * RangeLength(times)
      ensures r.Success? ==> forall i :: 0 <= i < |r.value| ==>
                RangeLength(times) > 0 && i / RangeLength(times) < |dice|
                && r.value[i] in dice[i / RangeLength(times)].faces
    {
      var n := RangeLength(times);
      var results: seq<Value> := [];
      for k := 0 to |dice|
        invariant |results| == k * n
        invariant forall e :: 0 <= e < k ==> dice[e].DrawFailure(times).None?
        invariant forall i :: 0 <= i < |results| ==>
                    n > 0 && i / n < k && results[i] in dice[i / n].faces
      {
        var rolled := dice[k].Roll(times);
        if rolled.Failure? {
          return Failure(rolled.error);
        }
        ghost var before := results;
        results := results + rolled.value;
        assert |results| == (k + 1) * n by {
          assert (k + 1) * n == k * n + n;
        }
        forall i | |before| <= i < |results|
          ensures n > 0 && i / n < k + 1 && results[i] in dice[i / n].faces
        {
          Counting.BlockOwner(k, n, i);
          assert results[i] == rolled.value[i - |before|];
        }
      }
      r := Success(results);
    }

    /**
     * Rolls the dice `times` times and replaces the table with the die-major table of the
     * results. If a die cannot be drawn from, the previous table is kept.
     */
    method Play(times: int) returns (r: Outcome<Error>)
      requires Valid()
      modifies this
      ensures Valid()
      ensures r.Pass? <==> forall d :: 0 <= d < |dice| ==> dice[d].DrawFailure(times).None?
      ensures r.Fail? ==> table == old(table) && rolls == old(rolls)
      ensures r.Fail? ==>
                exists d :: 0 <= d < |dice| && dice[d].DrawFailure(times) == Some(r.error)
                            && forall e :: 0 <= e < d ==> dice[e].DrawFailure(times).None?
      ensures r.Pass? ==> table.Some? && |table.value| == |dice| * RangeLength(times)
      ensures r.Pass? ==> rolls == RangeLength(times)
      ensures r.Pass? ==> IsPlayTable(table.value, |dice|, rolls)
      ensures r.Pass? ==> forall i :: 0 <= i < |table.value| ==>
                table.value[i].face in dice[table.value[i].die].faces
    {
      var n := RangeLength(times);
      var faces := RollDice(times);
      if faces.Failure? {
        return Fail(faces.error);
      }
      var rows := PlayTable(|dice|, n, faces.value);
      forall i | 0 <= i < |rows|
        ensures rows[i].die < |dice| && rows[i].face in dice[rows[i].die].faces
      {
      }
      table := Some(rows);
      rolls := n;
      r := Pass;
    }

    /**
     * The latest play's table, narrow or wide. The display mode is checked first; a game
     * that was never played has no table to show.
     */
    function Show(display: string := "wide"): (r: Result<View, Error>)
      reads this
      ensures ParseDisplay(display).Failure? ==> r == Failure(BadDisplay(display))
      ensures ParseDisplay(display).Success? && table.None? ==> r == Failure(NotPlayed)
      ensures ParseDisplay(display) == Success(Narrow) && table.Some? ==>
                r == Success(NarrowView(table.value))
      ensures ParseDisplay(display) == Success(Wide) && table.Some? ==>
                r == Success(WideView(Pivot(table.value)))
    {
      match ParseDisplay(display)
      case Failure(e) => Failure(e)
      case Success(mode) =>
        if table.None? then Failure(NotPlayed)
        else if mode == Narrow then Success(NarrowView(table.value))
        else Success(WideView(Pivot(table.value)))
    }
  }

  /**
   * After a play, the narrow view has `|dice| * times` rows, and the wide view carries the same
   * (roll, die, face) triples: melting it gives back the rows of the narrow view.
   */
  lemma ShowViewsAgree(g: Game)
    requires g.Valid() && g.table.Some?
    ensures g.Show("narrow").Success? && g.Show("wide").Success?
    ensures |g.Show("narrow").value.rows| == |g.dice| * g.rolls
    ensures Melt(g.Show("wide").value.cells) == set i | 0 <= i < |g.table.value| :: g.table.value[i]
  {
    assert Lower("narrow") == "narrow";
    assert Lower("wide") == "wide";
    PlayTableKeysUnique(g.table.value, |g.dice|, g.rolls);
    PivotMeltRoundTrip(g.table.value);
  }
}
