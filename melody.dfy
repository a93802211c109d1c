/**
 * The melody generator of synth/notes.cpp, without its floating-point
 * durations and audio output: the table `nabornot` of 87 six-note chord sets,
 * the ranges `min_index`/`max_index` that select one of six groups of it, the
 * validation of the group chosen at the menu, `random_2`, and the random walk
 * of the note index `e` over 0..17 (three octaves of six notes of one set).
 * Random draws are parameters: each call of `random(a, b)` is a value the
 * caller supplies in [a, b].
 */
module Melody {

  /** The chord sets "mix", rows 0-11 (synth/notes.cpp:141-152). */
  const Mix1: seq<seq<int>> := [
    [0, 1, 3, 5, 6, 8],
    [0, 1, 3, 4, 6, 8],
    [0, 1, 3, 5, 6, 9],
    [0, 2, 3, 5, 6, 9],
    [0, 3, 4, 6, 8, 11],
    [0, 3, 4, 6, 7, 11],
    [0, 1, 3, 5, 6, 9],
    [0, 2, 3, 6, 7, 11],
    [0, 2, 3, 6, 7, 10],
    [0, 1, 3, 4, 6, 9],
    [0, 1, 3, 5, 6, 9],
    [0, 2, 3, 5, 6, 10]]

  /** The chord sets "mix", rows 12-23 (synth/notes.cpp:153-164). */
  const Mix2: seq<seq<int>> := [
    [0, 1, 3, 5, 6, 10],
    [0, 1, 3, 5, 7, 9],
    [0, 2, 3, 5, 7, 8],
    [0, 2, 3, 6, 7, 10],
    [0, 3, 5, 7, 8, 11],
    [0, 1, 3, 5, 7, 9],
    [0, 2, 3, 7, 8, 11],
    [0, 1, 3, 5, 7, 9],
    [0, 1, 3, 4, 7, 10],
    [0, 2, 3, 6, 7, 10],
    [0, 2, 3, 5, 7, 11],
    [0, 1, 4, 5, 7, 9]]

  /** The chord sets "mix", rows 24-35 (synth/notes.cpp:165-176). */
  const Mix3: seq<seq<int>> := [
    [0, 2, 4, 5, 7, 8],
    [0, 2, 4, 6, 7, 10],
    [0, 3, 4, 6, 7, 9],
    [0, 4, 5, 7, 8, 11],
    [0, 1, 4, 5, 7, 9],
    [0, 2, 4, 6, 7, 10],
    [0, 2, 4, 7, 8, 11],
    [0, 1, 4, 5, 7, 9],
    [0, 2, 4, 6, 7, 10],
    [0, 2, 4, 5, 7, 11],
    [0, 2, 4, 6, 8, 9],
    [0, 2, 4, 5, 8, 9]]

  /** The chord sets "mix", rows 36-47 (synth/notes.cpp:177-188). */
  const Mix4: seq<seq<int>> := [
    [0, 3, 4, 6, 8, 9],
    [0, 3, 4, 7, 8, 10],
    [0, 3, 4, 6, 8, 10],
    [0, 1, 4, 6, 8, 10],
    [0, 1, 4, 6, 8, 9],
    [0, 1, 4, 7, 8, 10],
    [0, 2, 4, 7, 8, 10],
    [0, 2, 4, 5, 8, 10],
    [0, 1, 4, 5, 8, 10],
    [0, 2, 4, 5, 8, 11],
    [0, 3, 4, 6, 8, 11],
    [0, 2, 4, 6, 8, 11]]

  /** The chord sets "minmin", rows 48-55 (synth/notes.cpp:190-197). */
  const MinMin: seq<seq<int>> := [
    [0, 2, 3, 5, 6, 11],
    [0, 1, 3, 4, 6, 10],
    [0, 2, 3, 6, 8, 11],
    [0, 1, 3, 6, 7, 10],
    [0, 3, 5, 6, 8, 11],
    [0, 3, 4, 6, 7, 10],
    [0, 2, 3, 5, 6, 8],
    [0, 1, 3, 4, 6, 7]]

  /** The chord sets "majmaj", rows 56-64 (synth/notes.cpp:199-207). */
  const MajMaj: seq<seq<int>> := [
    [0, 3, 4, 7, 8, 11],
    [0, 2, 4, 6, 8, 10],
    [0, 1, 4, 5, 8, 9],
    [0, 3, 4, 7, 8, 11],
    [0, 2, 4, 6, 8, 10],
    [0, 1, 4, 5, 8, 9],
    [0, 3, 4, 7, 8, 11],
    [0, 2, 4, 6, 8, 10],
    [0, 1, 4, 5, 8, 9]]

  /** The chord sets "durmol", rows 65-76 (synth/notes.cpp:209-220). */
  const DurMol: seq<seq<int>> := [
    [0, 2, 4, 6, 7, 11],
    [0, 1, 4, 5, 7, 10],
    [0, 3, 4, 7, 8, 11],
    [0, 1, 4, 6, 7, 9],
    [0, 3, 4, 6, 7, 10],
    [0, 2, 4, 5, 7, 9],
    [0, 2, 3, 6, 7, 9],
    [0, 1, 3, 5, 7, 8],
    [0, 1, 3, 6, 7, 10],
    [0, 1, 3, 4, 7, 9],
    [0, 2, 3, 5, 7, 10],
    [0, 3, 4, 7, 8, 11]]

  /** The chord sets "durdur", rows 77-81 (synth/notes.cpp:222-226). */
  const DurDur: seq<seq<int>> := [
    [0, 1, 4, 5, 7, 8],
    [0, 3, 4, 6, 7, 11],
    [0, 2, 4, 5, 7, 10],
    [0, 1, 4, 6, 7, 10],
    [0, 2, 4, 6, 7, 9]]

  /** The chord sets "molmol", rows 82-86 (synth/notes.cpp:228-232). */
  const MolMol: seq<seq<int>> := [
    [0, 1, 3, 4, 7, 8],
    [0, 2, 3, 5, 7, 9],
    [0, 1, 3, 6, 7, 9],
    [0, 1, 3, 5, 7, 10],
    [0, 2, 3, 6, 7, 11]]

  /** `nabornot`: the groups laid out one after another. */
  const ChordTable: seq<seq<int>> :=
    Mix1 + Mix2 + Mix3 + Mix4 + MinMin + MajMaj + DurMol + DurDur + MolMol

  /** `KOLICHESTVO_NABOROFF_NOT`, the number of rows of the table. */
  const ROW_COUNT: int := 87

  /** First and last row of each of the six groups the menu offers. */
  const MinIndex: seq<int> := [0, 48, 56, 65, 77, 82]
  const MaxIndex: seq<int> := [47, 55, 64, 76, 81, 86]

  /** The highest note index of the walk: three octaves of six notes, minus one. */
  const TOP: int := 17

  /**
   * A chord set as the generator that produced the table leaves it: six pitch
   * classes, reduced modulo 12 and sorted, starting on the root 0.
   */
  predicate IsPitchRow(row: seq<int>)
  {
    && |row| == 6
    && row[0] == 0
    && (forall j :: 0 <= j < 5 ==> row[j] < row[j + 1])
    && row[5] <= 11
  }

  predicate AllPitchRows(rows: seq<seq<int>>)
  {
    forall k :: 0 <= k < |rows| ==> IsPitchRow(rows[k])
  }

  /** Every entry of a chord set is a pitch class, and the entries are sorted. */
  lemma {:induction false} PitchRowEntries(row: seq<int>)
    requires IsPitchRow(row)
    ensures forall j :: 0 <= j < 6 ==> 0 <= row[j] <= 11
    ensures forall j, m :: 0 <= j < m < 6 ==> row[j] < row[m]
  {
    assert row[0] < row[1] < row[2] < row[3] < row[4] < row[5];
  }

  lemma {:induction false} AllPitchRowsAppend(a: seq<seq<int>>, b: seq<seq<int>>)
    requires AllPitchRows(a) && AllPitchRows(b)
    ensures AllPitchRows(a + b)
  {
    forall k | 0 <= k < |a + b| ensures IsPitchRow((a + b)[k]) {
      if k < |a| {
        assert (a + b)[k] == a[k];
      } else {
        assert (a + b)[k] == b[k - |a|];
      }
    }
  }

  /** Each group of the table consists of chord sets; one lemma per block keeps each proof small. */
  lemma {:induction false} Mix1Rows()
    ensures AllPitchRows(Mix1)
  {
  }

  lemma {:induction false} Mix2Rows()
    ensures AllPitchRows(Mix2)
  {
  }

  lemma {:induction false} Mix3Rows()
    ensures AllPitchRows(Mix3)
  {
  }

  lemma {:induction false} Mix4Rows()
    ensures AllPitchRows(Mix4)
  {
  }

  lemma {:induction false} MinMinRows()
    ensures AllPitchRows(MinMin)
  {
  }

  lemma {:induction false} MajMajRows()
    ensures AllPitchRows(MajMaj)
  {
  }

  lemma {:induction false} DurMolRows()
    ensures AllPitchRows(DurMol)
  {
  }

  lemma {:induction false} DurDurRows()
    ensures AllPitchRows(DurDur)
  {
  }

  lemma {:induction false} MolMolRows()
    ensures AllPitchRows(MolMol)
  {
  }

  /** The table has 87 rows, and every row is a sorted set of pitch classes starting on 0. */
  lemma {:induction false} ChordTableShape()
    ensures |ChordTable| == ROW_COUNT
    ensures AllPitchRows(ChordTable)
  {
    Mix1Rows();
    Mix2Rows();
    Mix3Rows();
    Mix4Rows();
    MinMinRows();
    MajMajRows();
    DurMolRows();
    DurDurRows();
    MolMolRows();
    var t := Mix1;
    AllPitchRowsAppend(t, Mix2);
    t := t + Mix2;
    AllPitchRowsAppend(t, Mix3);
    t := t + Mix3;
    AllPitchRowsAppend(t, Mix4);
    t := t + Mix4;
    AllPitchRowsAppend(t, MinMin);
    t := t + MinMin;
    AllPitchRowsAppend(t, MajMaj);
    t := t + MajMaj;
    AllPitchRowsAppend(t, DurMol);
    t := t + DurMol;
    AllPitchRowsAppend(t, DurDur);
    t := t + DurDur;
    AllPitchRowsAppend(t, MolMol);
    t := t + MolMol;
    assert t == ChordTable;
  }

  /** Every entry of every row is a pitch class. */
  lemma {:induction false} ChordTableEntry(r: int, n: int)
    requires 0 <= r < |ChordTable| && 0 <= n < 6
    ensures |ChordTable[r]| == 6 && 0 <= ChordTable[r][n] <= 11
  {
    ChordTableShape();
    PitchRowEntries(ChordTable[r]);
  }

  /**
   * The index ranges select exactly the groups of the table: range g holds
   * the rows of group g, in order.
   */
  lemma {:induction false} IndexRangesSelectGroups()
    ensures |MinIndex| == |MaxIndex| == 6
    ensures ChordTable[MinIndex[0]..MaxIndex[0] + 1] == Mix1 + Mix2 + Mix3 + Mix4
    ensures ChordTable[MinIndex[1]..MaxIndex[1] + 1] == MinMin
    ensures ChordTable[MinIndex[2]..MaxIndex[2] + 1] == MajMaj
    ensures ChordTable[MinIndex[3]..MaxIndex[3] + 1] == DurMol
    ensures ChordTable[MinIndex[4]..MaxIndex[4] + 1] == DurDur
    ensures ChordTable[MinIndex[5]..MaxIndex[5] + 1] == MolMol
  {
    var mix := Mix1 + Mix2 + Mix3 + Mix4;
    assert ChordTable == mix + MinMin + MajMaj + DurMol + DurDur + MolMol;
    assert |mix| == 48;
  }

  /**
   * The six ranges are contiguous and non-empty and together cover rows
   * 0..86: every row lies in exactly one of them.
   */
  function GroupOf(r: int): (g: int)
    requires 0 <= r < ROW_COUNT
    ensures 0 <= g < 6 && MinIndex[g] <= r <= MaxIndex[g]
    ensures forall h :: 0 <= h < 6 && MinIndex[h] <= r <= MaxIndex[h] ==> h == g
  {
    if r <= 47 then 0
    else if r <= 55 then 1
    else if r <= 64 then 2
    else if r <= 76 then 3
    else if r <= 81 then 4
    else 5
  }

  /** Ranges are contiguous: each starts right after the previous one ends, the first at 0, the last at the table's end. */
  lemma {:induction false} IndexRangesTile()
    ensures MinIndex[0] == 0 && MaxIndex[5] == ROW_COUNT - 1
    ensures forall g :: 0 <= g < 5 ==> MaxIndex[g] + 1 == MinIndex[g + 1]
    ensures forall g :: 0 <= g < 6 ==> MinIndex[g] <= MaxIndex[g]
  {
  }

  /** A menu answer the validation loop accepts. */
  predicate IsChoice(x: int)
  {
    x == 1 || x == 2 || x == 3 || x == 4 || x == 5 || x == 6
  }

  /**
   * The menu's validation loop: `answers` are the integers read from the
   * input, the first before the loop. Every answer outside 1..6 is rejected
   * and the next one read; the loop ends at the first valid answer, which
   * the input must hold for the loop to end.
   */
  method ReadChordSetChoice(answers: seq<int>) returns (x: int, read: nat)
    requires exists k :: 0 <= k < |answers| && IsChoice(answers[k])
    ensures 1 <= x <= 6
    ensures 0 < read <= |answers| && x == answers[read - 1]
    ensures forall k :: 0 <= k < read - 1 ==> !IsChoice(answers[k])
  {
    x := answers[0];
    read := 1;
    while !IsChoice(x)
      invariant 0 < read <= |answers| && x == answers[read - 1]
      invariant forall k :: 0 <= k < read - 1 ==> !IsChoice(answers[k])
      invariant exists k :: read - 1 <= k < |answers| && IsChoice(answers[k])
      decreases |answers| - read
    {
      x := answers[read];
      read := read + 1;
    }
  }

  /** A row drawn from the range of a valid menu answer is a row of the table, and a chord set. */
  lemma {:induction false} DrawnRowIsValid(x: int, r: int)
    requires 1 <= x <= 6 && MinIndex[x - 1] <= r <= MaxIndex[x - 1]
    ensures 0 <= r < |ChordTable| && IsPitchRow(ChordTable[r])
  {
    ChordTableShape();
  }

  /** The sum of the draws, taken in order. */
  function Sum(draws: seq<int>): int
  {
    if draws == [] then 0 else Sum(draws[..|draws| - 1]) + draws[|draws| - 1]
  }

  function Abs(n: int): (a: nat)
    ensures a == n || a == -n
  {
    if n < 0 then -n else n
  }

  function Max(a: int, b: int): (m: int)
    ensures m >= a && m >= b && (m == a || m == b)
  {
    if a < b then b else a
  }

  /** Each draw is a value of `random(-1, 1)`. */
  predicate IsUnitDraws(draws: seq<int>)
  {
    forall k :: 0 <= k < |draws| ==> -1 <= draws[k] <= 1
  }

  /** n draws of -1, 0 or 1 sum to a value in [-n, n]. */
  lemma {:induction false} SumBound(draws: seq<int>)
    requires IsUnitDraws(draws)
    ensures -|draws| <= Sum(draws) <= |draws|
  {
    if draws != [] {
      var init := draws[..|draws| - 1];
      assert IsUnitDraws(init) by {
        forall k | 0 <= k < |init| ensures -1 <= init[k] <= 1 {
          assert init[k] == draws[k];
        }
      }
      SumBound(init);
    }
  }

  /**
   * `random_2(a)`: the absolute value of the sum of `a` draws of
   * `random(-1, 1)` (none when a <= 0). `draws` supplies them, and only its
   * first a are used. The result lies in [0, a].
   */
  method Random2(a: int, draws: seq<int>) returns (u: int)
    requires IsUnitDraws(draws) && a <= |draws|
    ensures u == Abs(Sum(draws[..Max(a, 0)]))
    ensures 0 <= u <= Max(a, 0)
  {
    u := 0;
    var c := 0;
    while c < a
      invariant 0 <= c <= Max(a, 0) && u == Sum(draws[..c])
    {
      assert draws[..c + 1][..c] == draws[..c];
      u := u + draws[c];
      c := c + 1;
    }
    assert IsUnitDraws(draws[..c]) by {
      forall k | 0 <= k < c ensures -1 <= draws[..c][k] <= 1 {
        assert draws[..c][k] == draws[k];
      }
    }
    SumBound(draws[..c]);
    if u < 0 {
      u := -u;
    }
  }

  /** `max(17 - e, e)`: the number of unit draws a step makes from index e. */
  function Reach(e: int): (w: int)
    ensures w >= TOP - e && w >= e
    ensures 0 <= e <= TOP ==> w <= TOP
  {
    Max(TOP - e, e)
  }

  /**
   * One step of the walk: move `l` up or down, and where that leaves
   * 0..17 move `l` the other way instead. From an index in 0..17 with
   * l <= max(17 - e, e) the result stays in 0..17.
   */
  function Step(e: int, l: int, up: bool): (next: int)
    requires 0 <= e <= TOP && 0 <= l <= Reach(e)
    ensures 0 <= next <= TOP
    ensures var moved := if up then e + l else e - l;
            next == (if 0 <= moved <= TOP then moved else 2 * e - moved)
  {
    var moved := e + (if up then 1 else -1) * l;
    var lifted := if moved < 0 then moved + 2 * l else moved;
    if lifted > TOP then lifted - 2 * l else lifted
  }

  /** One note of the melody: its octave `o`, its position `n` in the chord set, and its pitch class. */
  datatype Note = Note(octave: int, degree: int, pitch: int)

  /**
   * The note index e picks octave i + e / 6 and degree e % 6 of the chord
   * set `row`; for e in 0..17 the octave is one of i, i + 1, i + 2 and the
   * pitch is the chord set's entry, a pitch class.
   */
  function NoteAt(i: int, row: seq<int>, e: int): (note: Note)
    requires IsPitchRow(row) && 0 <= e <= TOP
    ensures i <= note.octave <= i + 2 && 0 <= note.degree < 6
    ensures e == 6 * (note.octave - i) + note.degree
    ensures note.pitch == row[note.degree] && 0 <= note.pitch <= 11
  {
    PitchRowEntries(row);
    Note(i + e / 6, e % 6, row[e % 6])
  }

  /** The draws one step of the walk consumes: those of `random_2`, then the direction `random(0, 1)`. */
  datatype StepDraws = StepDraws(units: seq<int>, up: bool)

  /** Enough unit draws for any step: `random_2` never asks for more than 17. */
  predicate IsStepDraws(d: StepDraws)
  {
    IsUnitDraws(d.units) && |d.units| >= TOP
  }

  /** The length `random_2(max(17 - e, e))` of the step from e: at most max(17 - e, e). */
  function StepLength(d: StepDraws, e: int): (l: nat)
    requires IsStepDraws(d) && 0 <= e <= TOP
    ensures l <= Reach(e)
  {
    var drawn := d.units[..Reach(e)];
    assert IsUnitDraws(drawn) by {
      forall k | 0 <= k < |drawn| ensures -1 <= drawn[k] <= 1 {
        assert drawn[k] == d.units[k];
      }
    }
    SumBound(drawn);
    Abs(Sum(drawn))
  }

  /**
   * The note loop of one melody: from the start index `e0` (drawn from
   * [6, 11]) and the chord set `row` (row r of the table), emit the note for the current index, then
   * step the index by `random_2(max(17 - e, e))` in the drawn direction.
   * `path` records the index before each note and after the last.
   */
  method Walk(i: int, row: seq<int>, e0: int, steps: seq<StepDraws>) returns (notes: seq<Note>, path: seq<int>)
    requires IsPitchRow(row) && 6 <= e0 <= 11
    requires forall k :: 0 <= k < |steps| ==> IsStepDraws(steps[k])
    ensures |notes| == |steps| && |path| == |steps| + 1 && path[0] == e0
    ensures forall k :: 0 <= k < |path| ==> 0 <= path[k] <= TOP
    ensures forall k :: 0 <= k < |steps| ==> notes[k] == NoteAt(i, row, path[k])
    ensures forall k :: 0 <= k < |steps| ==>
              path[k + 1] == Step(path[k], StepLength(steps[k], path[k]), steps[k].up)
  {
    var e := e0;
    notes, path := [], [e0];
    var k := 0;
    while k < |steps|
      invariant 0 <= k <= |steps| && |notes| == k && |path| == k + 1
      invariant path[0] == e0 && path[k] == e && 0 <= e <= TOP
      invariant forall m :: 0 <= m < |path| ==> 0 <= path[m] <= TOP
      invariant forall m :: 0 <= m < k ==> notes[m] == NoteAt(i, row, path[m])
      invariant forall m :: 0 <= m < k ==>
                  path[m + 1] == Step(path[m], StepLength(steps[m], path[m]), steps[m].up)
    {
      notes := notes + [NoteAt(i, row, e)];
      var w := Reach(e);
      var l := Random2(w, steps[k].units);
      assert Max(w, 0) == w && l == StepLength(steps[k], e);
      var next := Step(e, l, steps[k].up);
      path := path + [next];
      e := next;
      k := k + 1;
    }
  }
}
