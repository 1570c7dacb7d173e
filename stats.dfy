/**
 * The analyzer's aggregations over a long result table: groups by (roll, face), the set of
 * faces per roll and how many rolls share each, and the per-roll count of every face.
 */
module Stats {
  import opened Values
  import opened Tables
  import Counting

  /** The positions of the rows with roll number `roll`. */
  function RollRows(table: seq<Row>, roll: nat): set<nat>
  {
    set i: nat | i < |table| && table[i].roll == roll
  }

  /** The positions of the rows of the (roll, face) group. */
  function GroupRows(table: seq<Row>, roll: nat, face: Value): (rows: set<nat>)
    ensures rows <= RollRows(table, roll)
  {
    set i: nat | i < |table| && table[i].roll == roll && table[i].face == face
  }

  /** The (roll, face) pairs that occur in the table. */
  function GroupKeys(table: seq<Row>): set<(nat, Value)>
  {
    set i | 0 <= i < |table| :: (table[i].roll, table[i].face)
  }

  /** Grouping by (roll, face) and taking each group's size. */
  function Occurrences(table: seq<Row>): (m: map<(nat, Value), nat>)
    ensures m.Keys == GroupKeys(table)
    ensures forall k :: k in m ==> m[k] == |GroupRows(table, k.0, k.1)|
  {
    map k | k in GroupKeys(table) :: |GroupRows(table, k.0, k.1)|
  }

  /** Every group that occurs has at least one row. */
  lemma OccurrencesPositive(table: seq<Row>, k: (nat, Value))
    requires k in Occurrences(table)
    ensures Occurrences(table)[k] >= 1
  {
    var i :| 0 <= i < |table| && k == (table[i].roll, table[i].face);
    assert i in GroupRows(table, k.0, k.1);
  }

  /** The groups whose size is the number of dice. */
  function Jackpots(table: seq<Row>, numDice: nat): (m: map<(nat, Value), nat>)
    ensures forall k :: k in m <==> k in Occurrences(table) && Occurrences(table)[k] == numDice
    ensures forall k :: k in m ==> m[k] == numDice
  {
    var occurrences := Occurrences(table);
    map k | k in occurrences && occurrences[k] == numDice :: occurrences[k]
  }

  /** The roll numbers that occur in the table. */
  function Rolls(table: seq<Row>): set<nat>
  {
    set i | 0 <= i < |table| :: table[i].roll
  }

  /** Every row of roll `roll` shows the same face, and there is at least one. */
  ghost predicate AllSameFace(table: seq<Row>, roll: nat)
  {
    && roll in Rolls(table)
    && forall i, j :: (0 <= i < |table| && 0 <= j < |table| && table[i].roll == roll
                       && table[j].roll == roll) ==> table[i].face == table[j].face
  }

  /** The rolls in which every die showed the same face. */
  ghost function JackpotRolls(table: seq<Row>): set<nat>
  {
    set roll | roll in Rolls(table) && AllSameFace(table, roll)
  }

  /** The row of die `d` for roll `roll`, in a die-major table of `times` rolls per die. */
  function Slot(times: nat, roll: nat, d: int): int
  {
    d * times + (roll - 1)
  }

  /** A row of a play for roll `roll` is the slot of its own die. */
  lemma PlayRollRow(table: seq<Row>, numDice: nat, times: nat, roll: nat, i: nat)
    requires IsPlayTable(table, numDice, times) && i in RollRows(table, roll)
    ensures 1 <= roll <= times && table[i].die < numDice && i == Slot(times, roll, table[i].die)
  {
    PlayRowPosition(table, numDice, times, i);
  }

  /** The slot of die `d` for roll `roll` is a row of that roll. */
  lemma PlaySlotRow(table: seq<Row>, numDice: nat, times: nat, roll: nat, d: nat)
    requires IsPlayTable(table, numDice, times) && 1 <= roll <= times && d < numDice
    ensures 0 <= Slot(times, roll, d) < |table| && Slot(times, roll, d) in RollRows(table, roll)
    ensures table[Slot(times, roll, d)].die == d
  {
    PlayRowAt(table, numDice, times, d, roll - 1);
  }

  /** In a play, the rows of roll `roll` are the slots of the dice `0..numDice - 1`. */
  lemma PlayRollRowsAreSlots(table: seq<Row>, numDice: nat, times: nat, roll: nat)
    requires IsPlayTable(table, numDice, times) && 1 <= roll <= times
    ensures RollRows(table, roll) == Slots(times, roll, numDice)
  {
    var image := Slots(times, roll, numDice);
    forall i | i in RollRows(table, roll) ensures i in image {
      PlayRollRow(table, numDice, times, roll, i);
    }
    forall i | i in image ensures i in RollRows(table, roll) {
      var d :| 0 <= d < numDice && Slot(times, roll, d) == i;
      PlaySlotRow(table, numDice, times, roll, d);
    }
  }

  /** Different dice have different slots for the same roll. */
  lemma SlotInjective(times: nat, roll: nat, d: nat, e: nat)
    requires 1 <= roll <= times && Slot(times, roll, d) == Slot(times, roll, e)
    ensures d == e
  {
    Counting.DivMod(d, times, roll - 1);
    Counting.DivMod(e, times, roll - 1);
  }

  /** The slots of dice `0..n - 1` for roll `roll`. */
  function Slots(times: nat, roll: nat, n: nat): set<int>
  {
    set d | 0 <= d < n :: Slot(times, roll, d)
  }

  /** The slots of `n` dice for one roll are `n` distinct rows. */
  lemma {:induction false} SlotsSize(times: nat, roll: nat, n: nat)
    requires 1 <= roll <= times
    ensures |Slots(times, roll, n)| == n
  {
    if n > 0 {
      SlotsSize(times, roll, n - 1);
      assert Slots(times, roll, n) == Slots(times, roll, n - 1) + {Slot(times, roll, n - 1)};
      if Slot(times, roll, n - 1) in Slots(times, roll, n - 1) {
        var d :| 0 <= d < n - 1 && Slot(times, roll, d) == Slot(times, roll, n - 1);
        SlotInjective(times, roll, d, n - 1);
      }
    } else {
      assert Slots(times, roll, n) == {};
    }
  }

  /** In a play, roll `roll` has one row per die, and a roll outside `1..times` has none. */
  lemma PlayRollRows(table: seq<Row>, numDice: nat, times: nat, roll: nat)
    requires IsPlayTable(table, numDice, times)
    ensures 1 <= roll <= times ==> |RollRows(table, roll)| == numDice
    ensures !(1 <= roll <= times) ==> RollRows(table, roll) == {}
  {
    if 1 <= roll <= times {
      PlayRollRowsAreSlots(table, numDice, times, roll);
      SlotsSize(times, roll, numDice);
    } else {
      forall i | i in RollRows(table, roll) ensures false {
        PlayRollRow(table, numDice, times, roll, i);
      }
    }
  }

  /**
   * In a play with at least one die, a (roll, face) group is a jackpot exactly when every die
   * showed that face on that roll.
   */
  lemma PlayJackpotGroup(table: seq<Row>, numDice: nat, times: nat, roll: nat, face: Value)
    requires IsPlayTable(table, numDice, times) && numDice > 0
    ensures (roll, face) in Jackpots(table, numDice) <==>
              AllSameFace(table, roll) &&
              forall i :: 0 <= i < |table| && table[i].roll == roll ==> table[i].face == face
  {
    PlayRollRows(table, numDice, times, roll);
    var rows := RollRows(table, roll);
    var group := GroupRows(table, roll, face);
    if (roll, face) in Jackpots(table, numDice) {
      assert |group| == numDice;
      Counting.SubsetSameSize(group, rows);
      var i: nat :| i < |table| && table[i].roll == roll && table[i].face == face;
      assert i in group;
      forall j | 0 <= j < |table| && table[j].roll == roll ensures table[j].face == face {
        assert j in rows;
      }
    }
    if AllSameFace(table, roll) &&
       forall i :: 0 <= i < |table| && table[i].roll == roll ==> table[i].face == face
    {
      var i :| 0 <= i < |table| && table[i].roll == roll;
      assert (roll, face) == (table[i].roll, table[i].face);
      assert group == rows;
    }
  }

  /** In a play with at least one die, a roll is a jackpot for at most one face. */
  lemma PlayJackpotFaceUnique(table: seq<Row>, numDice: nat, times: nat, roll: nat, f: Value, g: Value)
    requires IsPlayTable(table, numDice, times) && numDice > 0
    ensures (roll, f) in Jackpots(table, numDice) && (roll, g) in Jackpots(table, numDice) ==> f == g
  {
    PlayJackpotGroup(table, numDice, times, roll, f);
    PlayJackpotGroup(table, numDice, times, roll, g);
    if (roll, f) in Jackpots(table, numDice) && (roll, g) in Jackpots(table, numDice) {
      var i :| 0 <= i < |table| && table[i].roll == roll;
    }
  }

  /** The rolls that have a jackpot group are the rolls in which every die showed the same face. */
  lemma PlayJackpotRolls(table: seq<Row>, numDice: nat, times: nat)
    requires IsPlayTable(table, numDice, times) && numDice > 0
    ensures (set k | k in Jackpots(table, numDice).Keys :: k.0) == JackpotRolls(table)
  {
    var keys := Jackpots(table, numDice).Keys;
    var image := set k | k in keys :: k.0;
    forall roll | roll in image ensures roll in JackpotRolls(table) {
      var k :| k in keys && k.0 == roll;
      PlayJackpotGroup(table, numDice, times, k.0, k.1);
    }
    forall roll | roll in JackpotRolls(table) ensures roll in image {
      var i :| 0 <= i < |table| && table[i].roll == roll;
      PlayJackpotGroup(table, numDice, times, roll, table[i].face);
      assert (roll, table[i].face) in keys;
    }
  }

  /** Keys with pairwise different rolls are as many as their rolls. */
  lemma {:induction false} RollProjectionSize(keys: set<(nat, Value)>)
    requires forall k, l :: k in keys && l in keys && k.0 == l.0 ==> k == l
    ensures |set k | k in keys :: k.0| == |keys|
    decreases |keys|
  {
    if keys != {} {
      var k :| k in keys;
      var rest := keys - {k};
      RollProjectionSize(rest);
      assert (set x | x in keys :: x.0) == (set x | x in rest :: x.0) + {k.0};
      assert k.0 !in (set x | x in rest :: x.0);
    } else {
      assert (set x | x in keys :: x.0) == {};
    }
  }

  /**
   * The jackpot count of a play is the number of rolls in which every die showed the same
   * face; it is therefore at most the number of rolls.
   */
  lemma PlayJackpotCount(table: seq<Row>, numDice: nat, times: nat)
    requires IsPlayTable(table, numDice, times) && numDice > 0
    ensures |Jackpots(table, numDice)| == |JackpotRolls(table)|
    ensures |Jackpots(table, numDice)| <= times
  {
    var keys := Jackpots(table, numDice).Keys;
    forall k, l | k in keys && l in keys && k.0 == l.0 ensures k == l {
      PlayJackpotFaceUnique(table, numDice, times, k.0, k.1, l.1);
    }
    RollProjectionSize(keys);
    PlayJackpotRolls(table, numDice, times);
    PlayRolls(table, numDice, times);
    Counting.SubsetSize(JackpotRolls(table), Rolls(table));
  }

  /** The roll numbers of a play with at least one die are `1..times`. */
  lemma PlayRolls(table: seq<Row>, numDice: nat, times: nat)
    requires IsPlayTable(table, numDice, times) && numDice > 0
    ensures Rolls(table) == Counting.Interval(1, times + 1)
    ensures |Rolls(table)| == times
  {
    forall roll | roll in Rolls(table) ensures 1 <= roll <= times {
      var i :| 0 <= i < |table| && table[i].roll == roll;
      PlayRowPosition(table, numDice, times, i);
    }
    forall roll: nat | 1 <= roll <= times ensures roll in Rolls(table) {
      PlayRowAt(table, numDice, times, 0, roll - 1);
      assert table[roll - 1].roll == roll;
    }
  }

  // ----- Combos -----

  /** A combo: the distinct faces rolled across the dice in one roll. */
  type Combo = set<Value>

  /** The faces rolled on roll `roll`, duplicates collapsed. */
  function RollFaces(table: seq<Row>, roll: nat): (c: Combo)
    ensures c <= Faces(table)
  {
    set i | 0 <= i < |table| && table[i].roll == roll :: table[i].face
  }

  /** A roll shows at least one face exactly when it occurs in the table. */
  lemma RollFacesNonEmpty(table: seq<Row>, roll: nat)
    ensures RollFaces(table, roll) != {} <==> roll in Rolls(table)
  {
    if roll in Rolls(table) {
      var i :| 0 <= i < |table| && table[i].roll == roll;
      assert table[i].face in RollFaces(table, roll);
    }
  }

  /** The rolls whose faces form `combo`. */
  function RollsWithCombo(table: seq<Row>, combo: Combo): set<nat>
  {
    set roll | roll in Rolls(table) && RollFaces(table, roll) == combo
  }

  /** The combos that some roll produced. */
  function ComboKeys(table: seq<Row>): set<Combo>
  {
    set roll | roll in Rolls(table) :: RollFaces(table, roll)
  }

  /** Grouping the rolls by their combo and counting each group. */
  function Combos(table: seq<Row>): (m: map<Combo, nat>)
    ensures m.Keys == ComboKeys(table)
    ensures forall c :: c in m ==> m[c] == |RollsWithCombo(table, c)|
  {
    map c | c in ComboKeys(table) :: |RollsWithCombo(table, c)|
  }

  /** Every combo that occurs has a positive count. */
  lemma CombosPositive(table: seq<Row>, c: Combo)
    requires c in Combos(table)
    ensures Combos(table)[c] >= 1
  {
    var roll :| roll in Rolls(table) && RollFaces(table, roll) == c;
    assert roll in RollsWithCombo(table, c);
  }

  /** The combo of a roll is the set of faces in that roll's row of the wide view. */
  lemma ComboIsWideRowFaces(table: seq<Row>, roll: nat)
    requires UniqueKeys(table) && roll in Pivot(table)
    ensures roll in Rolls(table)
    ensures RollFaces(table, roll) == Pivot(table)[roll].Values
  {
    PivotRollsFromRows(table, roll);
    var cells := Pivot(table)[roll];
    forall f | f in RollFaces(table, roll) ensures f in cells.Values {
      var i :| 0 <= i < |table| && table[i].roll == roll && table[i].face == f;
      PivotCell(table, i);
      assert cells[table[i].die] == f;
    }
    forall f | f in cells.Values ensures f in RollFaces(table, roll) {
      var die :| die in cells && cells[die] == f;
      PivotCellsFromRows(table, roll, die);
      var i :| 0 <= i < |table| && table[i].roll == roll && table[i].die == die && cells[die] == table[i].face;
    }
  }

  /**
   * Two rolls whose dice show the same set of faces, in whatever die order and with whatever
   * repeats, are counted as the same combo.
   */
  lemma ComboIgnoresDieOrder(table: seq<Row>, r1: nat, r2: nat)
    requires UniqueKeys(table) && r1 in Pivot(table) && r2 in Pivot(table)
    requires Pivot(table)[r1].Values == Pivot(table)[r2].Values
    ensures RollFaces(table, r1) in Combos(table)
    ensures r1 in RollsWithCombo(table, RollFaces(table, r1))
    ensures r2 in RollsWithCombo(table, RollFaces(table, r1))
  {
    ComboIsWideRowFaces(table, r1);
    ComboIsWideRowFaces(table, r2);
  }

  /** `s` lists the entries of `m`, each key once. */
  ghost predicate Lists(s: seq<(Combo, nat)>, m: map<Combo, nat>)
  {
    && (forall i :: 0 <= i < |s| ==> s[i].0 in m && s[i].1 == m[s[i].0])
    && (forall c :: c in m ==> exists i :: 0 <= i < |s| && s[i].0 == c)
    && (forall i, j :: 0 <= i < j < |s| ==> s[i].0 != s[j].0)
  }

  /** The counts never increase along `s`. */
  ghost predicate NonIncreasing(s: seq<(Combo, nat)>)
  {
    forall i, j :: 0 <= i < j < |s| ==> s[i].1 >= s[j].1
  }

  /** A finite non-empty set of keys has one with the largest count. */
  lemma {:induction false} LargestExists(m: map<Combo, nat>, keys: set<Combo>)
    requires keys != {} && keys <= m.Keys
    ensures exists top :: top in keys && forall c :: c in keys ==> m[c] <= m[top]
    decreases |keys|
  {
    var c :| c in keys;
    if keys != {c} {
      LargestExists(m, keys - {c});
      var top :| top in keys - {c} && forall d :: d in keys - {c} ==> m[d] <= m[top];
      if m[c] > m[top] {
        assert forall d :: d in keys ==> m[d] <= m[c];
      } else {
        assert forall d :: d in keys ==> m[d] <= m[top];
      }
    } else {
      assert forall d :: d in keys ==> m[d] <= m[c];
    }
  }

  /**
   * Lists the entries of `m` by count, largest first. Among equal counts the order is left
   * open.
   */
  method SortByOccurrences(m: map<Combo, nat>) returns (s: seq<(Combo, nat)>)
    ensures Lists(s, m)
    ensures NonIncreasing(s)
    ensures |s| == |m|
  {
    s := [];
    var remaining := m.Keys;
    while remaining != {}
      invariant remaining <= m.Keys
      invariant |s| + |remaining| == |m|
      invariant forall i :: 0 <= i < |s| ==> s[i].0 in m && s[i].1 == m[s[i].0] && s[i].0 !in remaining
      invariant forall c :: c in m ==> c in remaining || exists i :: 0 <= i < |s| && s[i].0 == c
      invariant forall i, j :: 0 <= i < j < |s| ==> s[i].0 != s[j].0
      invariant NonIncreasing(s)
      invariant forall i, c :: 0 <= i < |s| && c in remaining ==> m[c] <= s[i].1
      decreases |remaining|
    {
      LargestExists(m, remaining);
      var top :| top in remaining && forall c :: c in remaining ==> m[c] <= m[top];
      var prev := s;
      s := s + [(top, m[top])];
      remaining := remaining - {top};
      assert s[|prev|].0 == top;
      assert forall i :: 0 <= i < |prev| ==> s[i] == prev[i];
    }
  }

  /** The total of the counts in `s`. */
  function SumCounts(s: seq<(Combo, nat)>): nat
  {
    if s == [] then 0 else s[0].1 + SumCounts(s[1..])
  }

  /** The combos that appear in `s`. */
  function KeysOf(s: seq<(Combo, nat)>): set<Combo>
  {
    set i | 0 <= i < |s| :: s[i].0
  }

  /** The rolls whose combo is one of `combos`. */
  function RollsWithComboIn(table: seq<Row>, combos: set<Combo>): set<nat>
  {
    set roll | roll in Rolls(table) && RollFaces(table, roll) in combos
  }

  /**
   * The keys of a listing are its first key and the keys of the rest; with distinct keys the
   * first is not among the rest.
   */
  lemma KeysOfCons(s: seq<(Combo, nat)>)
    requires s != []
    requires forall i, j :: 0 <= i < j < |s| ==> s[i].0 != s[j].0
    ensures KeysOf(s) == {s[0].0} + KeysOf(s[1..])
    ensures s[0].0 !in KeysOf(s[1..])
  {
    var rest := s[1..];
    forall c | c in KeysOf(s) ensures c in {s[0].0} + KeysOf(rest) {
      var i :| 0 <= i < |s| && s[i].0 == c;
      if i > 0 { assert rest[i - 1].0 == c; }
    }
    forall c | c in KeysOf(rest) ensures c in KeysOf(s) {
      var i :| 0 <= i < |rest| && rest[i].0 == c;
      assert s[i + 1].0 == c;
    }
    forall i | 0 <= i < |rest| ensures rest[i].0 != s[0].0 {
      assert rest[i] == s[i + 1];
    }
  }

  /** Adding a combo not yet among `combos` adds exactly its own rolls. */
  lemma RollsWithComboInAdd(table: seq<Row>, c: Combo, combos: set<Combo>)
    requires c !in combos
    ensures |RollsWithComboIn(table, {c} + combos)|
         == |RollsWithCombo(table, c)| + |RollsWithComboIn(table, combos)|
  {
    var head := RollsWithCombo(table, c);
    var tail := RollsWithComboIn(table, combos);
    assert RollsWithComboIn(table, {c} + combos) == head + tail;
    assert head * tail == {};
  }

  /** Summing the counts of distinct combos counts each of their rolls once. */
  lemma {:induction false} PartialSum(table: seq<Row>, s: seq<(Combo, nat)>)
    requires forall i :: 0 <= i < |s| ==> s[i].0 in Combos(table) && s[i].1 == Combos(table)[s[i].0]
    requires forall i, j :: 0 <= i < j < |s| ==> s[i].0 != s[j].0
    ensures SumCounts(s) == |RollsWithComboIn(table, KeysOf(s))|
  {
    if s == [] {
      assert RollsWithComboIn(table, KeysOf(s)) == {};
    } else {
      PartialSum(table, s[1..]);
      KeysOfCons(s);
      RollsWithComboInAdd(table, s[0].0, KeysOf(s[1..]));
    }
  }

  /** The counts of a listing of the combos add up to the number of rolls. */
  lemma ComboCountsSum(table: seq<Row>, s: seq<(Combo, nat)>)
    requires Lists(s, Combos(table))
    ensures SumCounts(s) == |Rolls(table)|
  {
    PartialSum(table, s);
    forall roll | roll in Rolls(table) ensures roll in RollsWithComboIn(table, KeysOf(s)) {
      var c := RollFaces(table, roll);
      assert c in Combos(table);
      var i :| 0 <= i < |s| && s[i].0 == c;
    }
    assert RollsWithComboIn(table, KeysOf(s)) == Rolls(table);
  }

  // ----- Face-rolled occurrences -----

  /** Every face that occurs anywhere in the table. */
  function Faces(table: seq<Row>): (fs: set<Value>)
    ensures fs == {} <==> table == []
  {
    var fs := set i | 0 <= i < |table| :: table[i].face;
    assert table != [] ==> table[0].face in fs;
    fs
  }

  /** Per roll, the count of each face seen anywhere in the table, 0 where absent. */
  function FaceRolledOccurrences(table: seq<Row>): (m: map<nat, map<Value, nat>>)
    ensures m.Keys == Rolls(table)
    ensures forall roll :: roll in m ==> m[roll].Keys == Faces(table)
    ensures forall roll, face :: roll in m && face in m[roll] ==>
              m[roll][face] == |GroupRows(table, roll, face)|
  {
    map roll | roll in Rolls(table) :: map face | face in Faces(table) :: |GroupRows(table, roll, face)|
  }

  /**
   * A cell of the matrix is the size of the (roll, face) group where the group exists, and 0
   * where that face was not rolled on that roll.
   */
  lemma FaceRolledOccurrencesCell(table: seq<Row>, roll: nat, face: Value)
    requires roll in Rolls(table) && face in Faces(table)
    ensures (roll, face) in Occurrences(table) ==>
              FaceRolledOccurrences(table)[roll][face] == Occurrences(table)[(roll, face)]
    ensures (roll, face) !in Occurrences(table) ==> FaceRolledOccurrences(table)[roll][face] == 0
    ensures FaceRolledOccurrences(table)[roll][face] == 0 <==> face !in RollFaces(table, roll)
  {
    GroupNonEmpty(table, roll, face);
  }

  /** A (roll, face) group has rows exactly when that face was rolled on that roll. */
  lemma GroupNonEmpty(table: seq<Row>, roll: nat, face: Value)
    ensures GroupRows(table, roll, face) != {} <==> (roll, face) in GroupKeys(table)
    ensures GroupRows(table, roll, face) != {} <==> face in RollFaces(table, roll)
  {
    var group := GroupRows(table, roll, face);
    if group != {} {
      var i :| i in group;
      assert (table[i].roll, table[i].face) in GroupKeys(table);
      assert table[i].face in RollFaces(table, roll);
    }
    if (roll, face) in GroupKeys(table) || face in RollFaces(table, roll) {
      var i :| 0 <= i < |table| && table[i].roll == roll && table[i].face == face;
      assert i in group;
    }
  }

  /** Some member of a non-empty set of faces. */
  ghost function Pick(faces: set<Value>): Value
    requires faces != {}
  {
    var f :| f in faces; f
  }

  /** The sum of a row's cells over the columns `faces`. */
  ghost function SumOver(row: map<Value, nat>, faces: set<Value>): nat
    requires faces <= row.Keys
    decreases |faces|
  {
    if faces == {} then 0 else row[Pick(faces)] + SumOver(row, faces - {Pick(faces)})
  }

  /** The rows of roll `roll` whose face is in `faces`. */
  function RollRowsWithFaceIn(table: seq<Row>, roll: nat, faces: set<Value>): set<nat>
  {
    set i: nat | i < |table| && table[i].roll == roll && table[i].face in faces
  }

  /**
   * A row whose cells are the (roll, face) group sizes sums, over the columns `faces`, to the
   * number of that roll's rows showing one of those faces.
   */
  lemma {:induction false} RowSumOver(table: seq<Row>, roll: nat, row: map<Value, nat>, faces: set<Value>)
    requires faces <= row.Keys
    requires forall f :: f in row ==> row[f] == |GroupRows(table, roll, f)|
    ensures SumOver(row, faces) == |RollRowsWithFaceIn(table, roll, faces)|
    decreases |faces|
  {
    if faces == {} {
      assert RollRowsWithFaceIn(table, roll, faces) == {};
    } else {
      var f := Pick(faces);
      var rest := faces - {f};
      RowSumOver(table, roll, row, rest);
      assert faces == {f} + rest;
      RollRowsWithFaceInAdd(table, roll, f, rest);
    }
  }

  /** Adding a face not yet among `faces` adds exactly the rows of its group. */
  lemma RollRowsWithFaceInAdd(table: seq<Row>, roll: nat, f: Value, faces: set<Value>)
    requires f !in faces
    ensures |RollRowsWithFaceIn(table, roll, {f} + faces)|
         == |GroupRows(table, roll, f)| + |RollRowsWithFaceIn(table, roll, faces)|
  {
    var group := GroupRows(table, roll, f);
    var others := RollRowsWithFaceIn(table, roll, faces);
    assert RollRowsWithFaceIn(table, roll, {f} + faces) == group + others;
    assert group * others == {};
  }

  /** Each row of the matrix sums to the number of rows that roll has. */
  lemma RowSum(table: seq<Row>, roll: nat)
    requires roll in Rolls(table)
    ensures SumOver(FaceRolledOccurrences(table)[roll], Faces(table)) == |RollRows(table, roll)|
  {
    RowSumOver(table, roll, FaceRolledOccurrences(table)[roll], Faces(table));
    assert RollRowsWithFaceIn(table, roll, Faces(table)) == RollRows(table, roll);
  }

  /**
   * For a play with at least one die, the matrix has one row per roll number `1..times`, and
   * each row sums to the number of dice.
   */
  lemma PlayFaceRolledOccurrences(table: seq<Row>, numDice: nat, times: nat)
    requires IsPlayTable(table, numDice, times) && numDice > 0
    ensures FaceRolledOccurrences(table).Keys == Counting.Interval(1, times + 1)
    ensures forall roll :: roll in FaceRolledOccurrences(table) ==>
              SumOver(FaceRolledOccurrences(table)[roll], Faces(table)) == numDice
  {
    PlayRolls(table, numDice, times);
    forall roll | roll in FaceRolledOccurrences(table)
      ensures SumOver(FaceRolledOccurrences(table)[roll], Faces(table)) == numDice
    {
      RowSum(table, roll);
      PlayRollRows(table, numDice, times, roll);
    }
  }
}
