/**
 * The long-form result table of a game and its two views. A row carries a roll number
 * (1-based), a die number (0-based) and the face that die showed on that roll.
 */
module Tables {
  import opened Wrappers
  import opened Values
  import Counting

  datatype Row = Row(roll: nat, die: nat, face: Value)

  /** `range(1, times + 1)`: the roll numbers that one die contributes. */
  function RollRange(times: nat): (r: seq<nat>)
    ensures |r| == times
    ensures forall j :: 0 <= j < times ==> r[j] == j + 1
  {
    seq(times, j => j + 1)
  }

  /** The roll-number column: for every die in turn, the roll numbers `1..times`. */
  function RollNumbers(numDice: nat, times: nat): (r: seq<nat>)
    ensures |r| == numDice * times
  {
    if numDice == 0 then [] else RollNumbers(numDice - 1, times) + RollRange(times)
  }

  /** The die-number column: for every die in turn, its index repeated `times` times. */
  function DieNumbers(numDice: nat, times: nat): (r: seq<nat>)
    ensures |r| == numDice * times
  {
    if numDice == 0 then [] else DieNumbers(numDice - 1, times) + seq(times, _ => numDice - 1)
  }

  /** Row `i` of the roll-number column is `i % times + 1`. */
  lemma {:induction false} RollNumberAt(numDice: nat, times: nat, i: nat)
    requires i < |RollNumbers(numDice, times)|
    ensures times > 0 && RollNumbers(numDice, times)[i] == i % times + 1
  {
    var prefix := RollNumbers(numDice - 1, times);
    if i < |prefix| {
      RollNumberAt(numDice - 1, times, i);
    } else {
      Counting.DivMod(numDice - 1, times, i - |prefix|);
    }
  }

  /** Row `i` of the die-number column is `i / times`. */
  lemma {:induction false} DieNumberAt(numDice: nat, times: nat, i: nat)
    requires i < |DieNumbers(numDice, times)|
    ensures times > 0 && DieNumbers(numDice, times)[i] == i / times
  {
    var prefix := DieNumbers(numDice - 1, times);
    if i < |prefix| {
      DieNumberAt(numDice - 1, times, i);
    } else {
      Counting.DivMod(numDice - 1, times, i - |prefix|);
      assert DieNumbers(numDice, times)[i] == numDice - 1;
    }
  }

  /** The three columns side by side, one row per position. */
  function Columns(rolls: seq<nat>, dice: seq<nat>, faces: seq<Value>): (table: seq<Row>)
    requires |rolls| == |dice| == |faces|
    ensures |table| == |faces|
    ensures forall i :: 0 <= i < |table| ==> table[i] == Row(rolls[i], dice[i], faces[i])
  {
    seq(|faces|, i requires 0 <= i < |faces| => Row(rolls[i], dice[i], faces[i]))
  }

  /** A table of `numDice * times` rows, die-major: row `i` is roll `i % times + 1` of die `i / times`. */
  ghost predicate IsPlayTable(table: seq<Row>, numDice: nat, times: nat)
  {
    && |table| == numDice * times
    && forall i :: 0 <= i < |table| ==>
         times > 0 && table[i].roll == i % times + 1 && table[i].die == i / times
  }

  /** The table that a play builds from the faces the dice rolled, die after die. */
  function PlayTable(numDice: nat, times: nat, faces: seq<Value>): (table: seq<Row>)
    requires |faces| == numDice * times
    ensures IsPlayTable(table, numDice, times)
    ensures forall i :: 0 <= i < |table| ==> table[i].face == faces[i]
  {
    var table := Columns(RollNumbers(numDice, times), DieNumbers(numDice, times), faces);
    assert forall i :: 0 <= i < |table| ==> times > 0 && table[i].roll == i % times + 1 && table[i].die == i / times by {
      forall i | 0 <= i < |table|
        ensures times > 0 && table[i].roll == i % times + 1 && table[i].die == i / times
      {
        RollNumberAt(numDice, times, i);
        DieNumberAt(numDice, times, i);
      }
    }
    table
  }

  /** Die `d`'s roll number `j + 1` sits at row `d * times + j`. */
  lemma PlayRowAt(table: seq<Row>, numDice: nat, times: nat, d: nat, j: nat)
    requires IsPlayTable(table, numDice, times)
    requires d < numDice && j < times
    ensures d * times + j < |table|
    ensures table[d * times + j].roll == j + 1 && table[d * times + j].die == d
  {
    Counting.BlockIndex(d, times, j, numDice);
    Counting.DivMod(d, times, j);
  }

  /** Conversely, every row is at the position its die and roll numbers give. */
  lemma PlayRowPosition(table: seq<Row>, numDice: nat, times: nat, i: nat)
    requires IsPlayTable(table, numDice, times)
    requires i < |table|
    ensures table[i].die < numDice && 1 <= table[i].roll <= times
    ensures i == table[i].die * times + (table[i].roll - 1)
  {
    var d := i / times;
    if d >= numDice {
      Counting.MulAtLeast(d - numDice + 1, times);
      assert false;
    }
  }

  /** No two rows share a (roll number, die number) key. */
  ghost predicate UniqueKeys(table: seq<Row>)
  {
    forall i, j :: 0 <= i < |table| && 0 <= j < |table| && i != j ==>
      table[i].roll != table[j].roll || table[i].die != table[j].die
  }

  lemma PlayTableKeysUnique(table: seq<Row>, numDice: nat, times: nat)
    requires IsPlayTable(table, numDice, times)
    ensures UniqueKeys(table)
  {
    forall i, j | 0 <= i < |table| && 0 <= j < |table| && i != j
      ensures table[i].roll != table[j].roll || table[i].die != table[j].die
    {
      PlayRowPosition(table, numDice, times, i);
      PlayRowPosition(table, numDice, times, j);
    }
  }

  /** The wide view: for each roll number, the face of each die number. */
  type Wide = map<nat, map<nat, Value>>

  /**
   * Pivots the long table on the die number. It is meant for tables with `UniqueKeys`, as every
   * play table is; the source raises on a duplicate (roll, die) key.
   */
  function Pivot(table: seq<Row>): (w: Wide)
    ensures w.Keys == set i | 0 <= i < |table| :: table[i].roll
  {
    if table == [] then map[]
    else
      var last := table[|table| - 1];
      var w := Pivot(table[..|table| - 1]);
      var cells := if last.roll in w then w[last.roll] else map[];
      w[last.roll := cells[last.die := last.face]]
  }

  /** Every row gets a cell in the pivot. */
  lemma {:induction false} PivotHasRows(table: seq<Row>)
    ensures forall i :: 0 <= i < |table| ==>
              table[i].roll in Pivot(table) && table[i].die in Pivot(table)[table[i].roll]
  {
    if table != [] {
      var n := |table| - 1;
      var prefix := table[..n];
      PivotHasRows(prefix);
      forall i | 0 <= i < n
        ensures table[i].roll in Pivot(table) && table[i].die in Pivot(table)[table[i].roll]
      {
        assert prefix[i] == table[i];
      }
    }
  }

  /** Every roll of the pivot comes from a row. */
  lemma {:induction false} PivotRollsFromRows(table: seq<Row>, roll: nat)
    requires roll in Pivot(table)
    ensures exists i :: 0 <= i < |table| && table[i].roll == roll
  {
    var n := |table| - 1;
    var prefix := table[..n];
    if roll != table[n].roll {
      PivotRollsFromRows(prefix, roll);
      var i :| 0 <= i < |prefix| && prefix[i].roll == roll;
      assert table[i] == prefix[i];
    } else {
      assert table[n].roll == roll;
    }
  }

  /** Every cell of the pivot holds the face of a row with that key. */
  lemma {:induction false} PivotCellsFromRows(table: seq<Row>, roll: nat, die: nat)
    requires roll in Pivot(table) && die in Pivot(table)[roll]
    ensures exists i :: 0 <= i < |table| && table[i].roll == roll && table[i].die == die
                        && Pivot(table)[roll][die] == table[i].face
  {
    var n := |table| - 1;
    var prefix := table[..n];
    var last := table[n];
    if roll == last.roll && die == last.die {
      assert table[n].roll == roll && table[n].die == die;
    } else {
      var w := Pivot(prefix);
      assert roll in w && die in w[roll] && Pivot(table)[roll][die] == w[roll][die];
      PivotCellsFromRows(prefix, roll, die);
      var i :| 0 <= i < |prefix| && prefix[i].roll == roll && prefix[i].die == die
               && w[roll][die] == prefix[i].face;
      assert table[i] == prefix[i];
    }
  }

  /** Every cell of the pivot is the face of the one row with that key. */
  lemma PivotCell(table: seq<Row>, i: nat)
    requires UniqueKeys(table) && i < |table|
    ensures table[i].roll in Pivot(table) && table[i].die in Pivot(table)[table[i].roll]
    ensures Pivot(table)[table[i].roll][table[i].die] == table[i].face
  {
    PivotHasRows(table);
    var w := Pivot(table);
    PivotCellsFromRows(table, table[i].roll, table[i].die);
    var j :| 0 <= j < |table| && table[j].roll == table[i].roll && table[j].die == table[i].die
             && w[table[i].roll][table[i].die] == table[j].face;
    assert i == j;
  }

  /** Back from the wide view to (roll, die, face) triples. */
  function Melt(w: Wide): set<Row>
  {
    set roll, die | roll in w && die in w[roll] :: Row(roll, die, w[roll][die])
  }

  /** The wide view loses nothing: melting it gives back exactly the rows of the table. */
  lemma PivotMeltRoundTrip(table: seq<Row>)
    requires UniqueKeys(table)
    ensures Melt(Pivot(table)) == set i | 0 <= i < |table| :: table[i]
  {
    var w := Pivot(table);
    forall row | row in Melt(w) ensures row in set i | 0 <= i < |table| :: table[i] {
      PivotCellsFromRows(table, row.roll, row.die);
      var i :| 0 <= i < |table| && table[i].roll == row.roll && table[i].die == row.die
               && w[row.roll][row.die] == table[i].face;
      assert row == table[i];
    }
    forall i | 0 <= i < |table| ensures table[i] in Melt(w) {
      PivotCell(table, i);
    }
  }

  /** The wide view of a play has one row per roll number `1..times`. */
  lemma PlayWideRolls(table: seq<Row>, numDice: nat, times: nat)
    requires IsPlayTable(table, numDice, times) && numDice > 0
    ensures forall roll :: roll in Pivot(table) <==> 1 <= roll <= times
  {
    forall roll: nat | 1 <= roll <= times ensures roll in Pivot(table) {
      PlayWideCell(table, numDice, times, roll, 0);
    }
    forall roll | roll in Pivot(table) ensures 1 <= roll <= times {
      PivotRollFromRow(table, numDice, times, roll);
    }
  }

  /** Each row of the wide view of a play has one column per die `0..numDice - 1`. */
  lemma PlayWideColumns(table: seq<Row>, numDice: nat, times: nat, roll: nat, die: nat)
    requires IsPlayTable(table, numDice, times) && roll in Pivot(table)
    ensures die in Pivot(table)[roll] <==> die < numDice
  {
    PivotRollFromRow(table, numDice, times, roll);
    if die < numDice {
      PlayWideCell(table, numDice, times, roll, die);
    }
    if die in Pivot(table)[roll] {
      PivotDieFromRow(table, numDice, times, roll, die);
    }
  }

  /** The cell of the wide view for roll `roll` and die `die` is the face at row `die * times + roll - 1`. */
  lemma PlayWideCell(table: seq<Row>, numDice: nat, times: nat, roll: nat, die: nat)
    requires IsPlayTable(table, numDice, times)
    requires 1 <= roll <= times && die < numDice
    ensures die * times + roll - 1 < |table|
    ensures roll in Pivot(table) && die in Pivot(table)[roll]
    ensures Pivot(table)[roll][die] == table[die * times + roll - 1].face
  {
    PlayTableKeysUnique(table, numDice, times);
    PlayRowAt(table, numDice, times, die, roll - 1);
    PivotCell(table, die * times + roll - 1);
  }

  lemma PivotRollFromRow(table: seq<Row>, numDice: nat, times: nat, roll: nat)
    requires IsPlayTable(table, numDice, times) && roll in Pivot(table)
    ensures 1 <= roll <= times
  {
    PivotRollsFromRows(table, roll);
    var i :| 0 <= i < |table| && table[i].roll == roll;
    PlayRowPosition(table, numDice, times, i);
  }

  lemma PivotDieFromRow(table: seq<Row>, numDice: nat, times: nat, roll: nat, die: nat)
    requires IsPlayTable(table, numDice, times)
    requires roll in Pivot(table) && die in Pivot(table)[roll]
    ensures die < numDice
  {
    PivotCellsFromRows(table, roll, die);
    var i :| 0 <= i < |table| && table[i].roll == roll && table[i].die == die;
    PlayRowPosition(table, numDice, times, i);
  }

  /** The two display modes of a game's results. */
  datatype Display = Wide | Narrow

  /** Lower-cases an ASCII letter; every other character is left as it is. */
  function LowerChar(c: char): char
  {
    if 'A' <= c <= 'Z' then (c as int + 32) as char else c
  }

  function Lower(s: string): (r: string)
    ensures |r| == |s|
    ensures forall i :: 0 <= i < |s| ==> r[i] == LowerChar(s[i])
  {
    seq(|s|, i requires 0 <= i < |s| => LowerChar(s[i]))
  }

  /** Reads a display mode, ignoring case; anything else is an error that quotes the input. */
  function ParseDisplay(display: string): (r: Result<Display, Error>)
    ensures r == Success(Wide) <==> Lower(display) == "wide"
    ensures r == Success(Narrow) <==> Lower(display) == "narrow"
    ensures r.Failure? ==> r.error == BadDisplay(display)
  {
    var mode := Lower(display);
    if mode == "wide" then Success(Wide)
    else if mode == "narrow" then Success(Narrow)
    else Failure(BadDisplay(display))
  }

  /** Lower-casing twice changes nothing more than once. */
  lemma LowerIdempotent(s: string)
    ensures Lower(Lower(s)) == Lower(s)
  {
  }

  /** A display mode is recognised in any mix of cases, and nothing else is. */
  lemma ParseDisplayIgnoresCase(display: string)
    ensures ParseDisplay(display).Success? == ParseDisplay(Lower(display)).Success?
    ensures ParseDisplay(display).Success? ==> ParseDisplay(display) == ParseDisplay(Lower(display))
  {
    LowerIdempotent(display);
  }

  lemma ParseDisplayExamples()
    ensures ParseDisplay("WIDE") == Success(Wide)
    ensures ParseDisplay("Narrow") == Success(Narrow)
    ensures ParseDisplay("tall") == Failure(BadDisplay("tall"))
  {
    assert Lower("WIDE") == "wide";
    assert Lower("Narrow") == "narrow";
    assert Lower("tall") == "tall";
  }
}
