/**
 * The analyzer of a game: it reads the latest play's narrow table and caches three
 * statistics about it — the jackpots, the combos sorted by how often they occur, and the
 * per-roll face counts.
 */
module Analysis {
  import opened Wrappers
  import opened Values
  import opened Dice
  import opened Tables
  import opened Games
  import opened Stats
  import Counting

  class Analyzer {
    /** The game analyzed; the analyzer shares it, so it sees the game's latest play. */
    const game: Game
    /** The number of dice, fixed when the analyzer is made. */
    const numDice: nat
    /** The kind of the first face of the first die. */
    const faceKind: Kind
    /** The (roll, face) groups that cover every die, with their sizes. */
    var jackpots: Option<map<(nat, Value), nat>>
    /** The combos with their counts, largest count first. */
    var combos: Option<seq<(Combo, nat)>>
    /** Per roll, how many dice showed each face. */
    var faceRolledOccurrences: Option<map<nat, map<Value, nat>>>

    ghost predicate Valid()
      reads this, game
    {
      game.Valid() && numDice == |game.dice| && numDice >= 1
    }

    /** Use `NewAnalyzer`, which checks the game first. */
    constructor (game: Game)
      requires |game.dice| >= 1 && game.dice[0].faces != []
      ensures game.Valid() ==> Valid()
      ensures this.game == game && numDice == |game.dice|
      ensures faceKind == KindOf(game.dice[0].faces[0])
      ensures jackpots == None && combos == None && faceRolledOccurrences == None
    {
      this.game := game;
      numDice := |game.dice|;
      faceKind := KindOf(game.dice[0].faces[0]);
      jackpots := None;
      combos := None;
      faceRolledOccurrences := None;
    }

    /**
     * Counts the rolls on which every die showed the same face, and caches those (roll, face)
     * groups. A game never played leaves the cache as it was.
     */
    method CalculateJackpots() returns (r: Result<nat, Error>)
      requires Valid()
      modifies this
      ensures Valid()
      ensures combos == old(combos) && faceRolledOccurrences == old(faceRolledOccurrences)
      ensures game.table.None? ==> r == Failure(NotPlayed) && jackpots == old(jackpots)
      ensures game.table.Some? ==>
                && jackpots == Some(Jackpots(game.table.value, numDice))
                && r == Success(|JackpotRolls(game.table.value)|)
                && r.value <= game.rolls
    {
      assert Lower("narrow") == "narrow";
      match game.Show("narrow")
      case Failure(e) =>
        r := Failure(e);
      case Success(view) =>
        var rows := view.rows;
        var found := Jackpots(rows, numDice);
        PlayJackpotCount(rows, numDice, game.rolls);
        jackpots := Some(found);
        r := Success(|found|);
    }

    /**
     * Groups the rolls by the set of faces they showed, and caches every such combo with its
     * count, largest count first. A game never played leaves the cache as it was.
     */
    method CalculateCombos() returns (r: Outcome<Error>)
      requires Valid()
      modifies this
      ensures Valid()
      ensures jackpots == old(jackpots) && faceRolledOccurrences == old(faceRolledOccurrences)
      ensures game.table.None? ==> r == Fail(NotPlayed) && combos == old(combos)
      ensures game.table.Some? ==>
                && r == Pass && combos.Some?
                && Lists(combos.value, Combos(game.table.value))
                && NonIncreasing(combos.value)
                && SumCounts(combos.value) == game.rolls
    {
      assert Lower("narrow") == "narrow";
      match game.Show("narrow")
      case Failure(e) =>
        r := Fail(e);
      case Success(view) =>
        var rows := view.rows;
        var sorted := SortByOccurrences(Combos(rows));
        ComboCountsSum(rows, sorted);
        PlayRolls(rows, numDice, game.rolls);
        combos := Some(sorted);
        r := Pass;
    }

    /**
     * Caches, for each roll, how many dice showed each face seen in the play, with 0 for a
     * face that roll did not show. A game never played leaves the cache as it was.
     */
    method CalculateFaceRolledOccurrences() returns (r: Outcome<Error>)
      requires Valid()
      modifies this
      ensures Valid()
      ensures jackpots == old(jackpots) && combos == old(combos)
      ensures game.table.None? ==> r == Fail(NotPlayed) && faceRolledOccurrences == old(faceRolledOccurrences)
      ensures game.table.Some? ==>
                && r == Pass
                && faceRolledOccurrences == Some(FaceRolledOccurrences(game.table.value))
                && faceRolledOccurrences.value.Keys == Counting.Interval(1, game.rolls + 1)
                && forall roll :: roll in faceRolledOccurrences.value ==>
                     SumOver(faceRolledOccurrences.value[roll], Faces(game.table.value)) == numDice
    {
      assert Lower("narrow") == "narrow";
      match game.Show("narrow")
      case Failure(e) =>
        r := Fail(e);
      case Success(view) =>
        var rows := view.rows;
        PlayFaceRolledOccurrences(rows, numDice, game.rolls);
        faceRolledOccurrences := Some(FaceRolledOccurrences(rows));
        r := Pass;
    }
  }

  /**
   * Makes an analyzer for `game`. A game without dice is refused, and so is one whose first
   * die has no face to take the face kind from.
   */
  method NewAnalyzer(game: Game) returns (r: Result<Analyzer, Error>)
    ensures r.Success? <==> |game.dice| >= 1 && game.dice[0].faces != []
    ensures |game.dice| < 1 <==> r == Failure(NoDice)
    ensures |game.dice| >= 1 && game.dice[0].faces == [] <==> r == Failure(NoFirstFace)
    ensures r.Success? ==>
              && fresh(r.value) && r.value.game == game && r.value.numDice == |game.dice|
              && r.value.faceKind == KindOf(game.dice[0].faces[0])
              && r.value.jackpots.None? && r.value.combos.None?
              && r.value.faceRolledOccurrences.None?
    ensures r.Success? && game.Valid() ==> r.value.Valid()
  {
    if |game.dice| < 1 {
      r := Failure(NoDice);
    } else if game.dice[0].faces == [] {
      r := Failure(NoFirstFace);
    } else {
      var analyzer := new Analyzer(game);
      r := Success(analyzer);
    }
  }
}
