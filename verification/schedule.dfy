/**
 * Slots, the timetable as a value, and the layout that the Timetable
 * constructor of timetable.py builds.
 *
 * Times are whole minutes (a single day). A slot is identified by its
 * position in the timetable's slot list; a grid cell refers to a slot by
 * that position, so an update of the slot is seen through the grid too.
 */
module Schedule {
  import opened Wrappers

  // Lengths in minutes of slots and tests.
  const SlotLenTest1: nat := 20
  const TestLenTest1: nat := 100
  const SlotLenTest2: nat := 30
  const TestLenTest2: nat := 120

  /** The tutor every slot carries until a genome is applied. */
  const NotYetSet: string := "<not yet set>"

  /** Smallest unit of a timetable. */
  datatype Slot = Slot(start: int, group: int, tutor: string)

  function NewSlot(start: int): (s: Slot)
    ensures s.start == start && s.group == -1 && s.tutor == NotYetSet
  {
    Slot(start, -1, NotYetSet)
  }

  function SetTutor(s: Slot, tutor: string): (r: Slot)
    ensures r.tutor == tutor && r.start == s.start && r.group == s.group
  {
    s.(tutor := tutor)
  }

  function SetGroup(s: Slot, group: int): (r: Slot)
    ensures r.group == group && r.start == s.start && r.tutor == s.tutor
  {
    s.(group := group)
  }

  /** A cell of the room x column matrix: empty, or the position of a slot. */
  datatype Cell = Empty | Holds(index: nat)

  /** The whole state of a timetable as a value. */
  datatype Sched = Sched(slotLen: nat, rooms: seq<string>, tutors: seq<string>,
                         slots: seq<Slot>, grid: seq<seq<Cell>>)

  /** A rectangular grid with a row per room, at least one column, and cells
      that refer to existing slots. */
  ghost predicate WellFormed(s: Sched) {
    && s.slotLen > 0
    && |s.grid| == |s.rooms| > 0
    && |s.grid[0]| > 0
    && (forall r | 0 <= r < |s.grid| :: |s.grid[r]| == |s.grid[0]|)
    && (forall r, c | 0 <= r < |s.grid| && 0 <= c < |s.grid[r]| ::
          s.grid[r][c].Holds? ==> s.grid[r][c].index < |s.slots|)
  }

  function Cols(s: Sched): nat
    requires |s.grid| > 0
  {
    |s.grid[0]|
  }

  /** The slot a non-empty cell refers to. */
  function SlotIn(s: Sched, r: nat, c: nat): Slot
    requires WellFormed(s) && r < |s.grid| && c < Cols(s) && s.grid[r][c].Holds?
  {
    s.slots[s.grid[r][c].index]
  }

  /** Two schedules that differ at most in the tutors of their slots. */
  ghost predicate SameLayout(a: Sched, b: Sched) {
    && a.slotLen == b.slotLen && a.rooms == b.rooms && a.tutors == b.tutors
    && a.grid == b.grid && |a.slots| == |b.slots|
    && (forall k | 0 <= k < |a.slots| ::
          a.slots[k].start == b.slots[k].start && a.slots[k].group == b.slots[k].group)
  }

  /** The occupied cells of row r left of column c, in column order. */
  function RowSlots(s: Sched, r: nat, c: nat): (xs: seq<Slot>)
    requires WellFormed(s) && r < |s.grid| && c <= Cols(s)
    ensures |xs| <= c
  {
    if c == 0 then []
    else RowSlots(s, r, c - 1) + (if s.grid[r][c - 1].Holds? then [SlotIn(s, r, c - 1)] else [])
  }

  /** A row with an occupied cell left of c has a slot among the first c. */
  lemma {:induction false} RowSlotsNonEmpty(s: Sched, r: nat, c0: nat, c: nat)
    requires WellFormed(s) && r < |s.grid| && c0 < c <= Cols(s) && s.grid[r][c0].Holds?
    ensures |RowSlots(s, r, c)| > 0
    decreases c
  {
    if c0 < c - 1 {
      RowSlotsNonEmpty(s, r, c0, c - 1);
    }
  }

  // ---------------------------------------------------------------------
  // Test variants and the number of slots per room
  // ---------------------------------------------------------------------

  /** Length of the test, length of a slot, and the index of the first lab
      room (test 2 reserves the first room for preparation). */
  datatype Variant = Variant(testLen: nat, slotLen: nat, labFirst: nat)

  datatype Error = WrongTestNumber(test: int)
                 | WrongGenomeLength(got: nat, expected: nat)
                 | TooFewTutors(tutors: nat, rooms: nat)

  function SlotsPerGroup(v: Variant): int
    requires v.slotLen > 0
  {
    (v.testLen - v.slotLen) / v.slotLen
  }

  function VariantOf(test: int): (r: Option<Variant>)
    ensures r.Some? <==> test == 1 || test == 2
    ensures r.Some? ==> r.value.slotLen > 0 && r.value.labFirst == test - 1
    ensures r.Some? ==> SlotsPerGroup(r.value) == if test == 1 then 4 else 3
  {
    if test == 1 then Some(Variant(TestLenTest1, SlotLenTest1, 0))
    else if test == 2 then Some(Variant(TestLenTest2, SlotLenTest2, 1))
    else None
  }

  ghost predicate Supported(v: Variant) {
    Some(v) == VariantOf(1) || Some(v) == VariantOf(2)
  }

  function LabRooms(v: Variant, numRooms: nat): int {
    numRooms - v.labFirst
  }

  /** A configuration the constructor accepts: at least one lab room and at
      least as many groups as lab rooms, so that no room stays empty. */
  ghost predicate Fits(v: Variant, numRooms: nat, numGroups: nat) {
    Supported(v) && 1 <= LabRooms(v, numRooms) <= numGroups
  }

  /** Number of groups spread to lab room r: the residual groups go to the
      first lab rooms, one each. */
  function GroupsInRoom(v: Variant, numRooms: nat, numGroups: nat, r: nat): nat
    requires Fits(v, numRooms, numGroups) && v.labFirst <= r < numRooms
  {
    var labs := LabRooms(v, numRooms);
    numGroups / labs + (if r - v.labFirst < numGroups % labs then 1 else 0)
  }

  function RoomSlotCount(v: Variant, numRooms: nat, numGroups: nat, r: nat): nat
    requires Fits(v, numRooms, numGroups) && r < numRooms
  {
    if r < v.labFirst then numGroups
    else GroupsInRoom(v, numRooms, numGroups, r) * SlotsPerGroup(v)
  }

  /** Number of slots of each of the first n rooms, in room order. */
  function CountsBelow(v: Variant, numRooms: nat, numGroups: nat, n: nat): (counts: seq<nat>)
    requires Fits(v, numRooms, numGroups) && n <= numRooms
    ensures |counts| == n
  {
    if n == 0 then [] else CountsBelow(v, numRooms, numGroups, n - 1) + [RoomSlotCount(v, numRooms, numGroups, n - 1)]
  }

  /** Number of slots of each room, in room order (SlotCountAt gives each
      entry). */
  function SlotCounts(v: Variant, numRooms: nat, numGroups: nat): (counts: seq<nat>)
    requires Fits(v, numRooms, numGroups)
    ensures |counts| == numRooms
  {
    CountsBelow(v, numRooms, numGroups, numRooms)
  }

  lemma {:induction false} CountsBelowAt(v: Variant, numRooms: nat, numGroups: nat, n: nat, r: nat)
    requires Fits(v, numRooms, numGroups) && r < n <= numRooms
    ensures CountsBelow(v, numRooms, numGroups, n)[r] == RoomSlotCount(v, numRooms, numGroups, r)
    decreases n
  {
    if r < n - 1 {
      CountsBelowAt(v, numRooms, numGroups, n - 1, r);
    }
  }

  /** Room r holds RoomSlotCount slots. */
  lemma SlotCountAt(v: Variant, numRooms: nat, numGroups: nat, r: nat)
    requires Fits(v, numRooms, numGroups) && r < numRooms
    ensures SlotCounts(v, numRooms, numGroups)[r] == RoomSlotCount(v, numRooms, numGroups, r)
  {
    CountsBelowAt(v, numRooms, numGroups, numRooms, r);
  }

  /** The total computed (and otherwise unused) by the constructor. */
  function NumSlotsTotal(test: int, numGroups: nat): int
    requires test == 1 || test == 2
  {
    if test == 1 then numGroups * (TestLenTest1 - SlotLenTest1) / SlotLenTest1
    else numGroups * TestLenTest2 / SlotLenTest2
  }

  // ---------------------------------------------------------------------
  // Positions of the slots in the room-major slot list
  // ---------------------------------------------------------------------

  /** Position in the slot list of the first slot of room r. */
  function Offset(counts: seq<nat>, r: nat): nat
    requires r <= |counts|
  {
    if r == 0 then 0 else Offset(counts, r - 1) + counts[r - 1]
  }

  function Total(counts: seq<nat>): nat {
    Offset(counts, |counts|)
  }

  lemma {:induction false} OffsetMonotone(counts: seq<nat>, r: nat, r': nat)
    requires r <= r' <= |counts|
    ensures Offset(counts, r) <= Offset(counts, r')
    decreases r'
  {
    if r < r' {
      OffsetMonotone(counts, r, r' - 1);
    }
  }

  /** The room among the first n whose slots include position k. */
  function RoomBelow(counts: seq<nat>, k: nat, n: nat): (r: nat)
    requires n <= |counts| && k < Offset(counts, n)
    ensures r < n && Offset(counts, r) <= k < Offset(counts, r) + counts[r]
    decreases n
  {
    if Offset(counts, n - 1) <= k then n - 1 else RoomBelow(counts, k, n - 1)
  }

  /** The room holding the slot at position k. */
  function RoomOf(counts: seq<nat>, k: nat): (r: nat)
    requires k < Total(counts)
    ensures r < |counts| && Offset(counts, r) <= k < Offset(counts, r) + counts[r]
  {
    RoomBelow(counts, k, |counts|)
  }

  lemma RoomOfUnique(counts: seq<nat>, r: nat, k: nat)
    requires r < |counts| && Offset(counts, r) <= k < Offset(counts, r) + counts[r]
    ensures k < Total(counts) && RoomOf(counts, k) == r
  {
    OffsetMonotone(counts, r + 1, |counts|);
    var r' := RoomOf(counts, k);
    if r' < r {
      OffsetMonotone(counts, r' + 1, r);
    } else if r < r' {
      OffsetMonotone(counts, r + 1, r');
    }
  }

  /** The column of the slot at position k: room r starts in column r. */
  function ColOf(counts: seq<nat>, k: nat): nat
    requires k < Total(counts)
  {
    var r := RoomOf(counts, k);
    r + (k - Offset(counts, r))
  }

  lemma ColOfAt(counts: seq<nat>, r: nat, i: nat)
    requires r < |counts| && i < counts[r]
    ensures Offset(counts, r) + i < Total(counts)
    ensures RoomOf(counts, Offset(counts, r) + i) == r
    ensures ColOf(counts, Offset(counts, r) + i) == r + i
  {
    RoomOfUnique(counts, r, Offset(counts, r) + i);
  }

  // ---------------------------------------------------------------------
  // The grid the constructor lays out
  // ---------------------------------------------------------------------

  function Max(xs: seq<nat>): (m: nat)
    requires |xs| > 0
    ensures forall i | 0 <= i < |xs| :: xs[i] <= m
  {
    if |xs| == 1 then xs[0]
    else
      var m := Max(xs[..|xs| - 1]);
      if xs[|xs| - 1] > m then xs[|xs| - 1] else m
  }

  /** Max is reached by some element. */
  lemma {:induction false} MaxAttained(xs: seq<nat>) returns (i: nat)
    requires |xs| > 0
    ensures i < |xs| && xs[i] == Max(xs)
    decreases |xs|
  {
    if |xs| == 1 {
      i := 0;
    } else if xs[|xs| - 1] > Max(xs[..|xs| - 1]) {
      i := |xs| - 1;
    } else {
      i := MaxAttained(xs[..|xs| - 1]);
    }
  }

  /** Width of the matrix: the longest room plus the stagger of the rooms. */
  function Width(counts: seq<nat>, labs: nat): nat
    requires |counts| > 0
  {
    Max(counts) + labs
  }

  /** Room r occupies the columns r .. r + counts[r] - 1. */
  function CellAt(counts: seq<nat>, r: nat, c: nat): Cell
    requires r < |counts|
  {
    if r <= c < r + counts[r] then Holds(Offset(counts, r) + (c - r)) else Empty
  }

  /** Group of the slot in row r, column c. The preparation room of test 2
      sees group c in column c; lab room r starts with group r - labFirst and
      moves on by the number of lab rooms after every SlotsPerGroup slots. */
  function GroupAt(v: Variant, labs: nat, r: nat, c: nat): int
    requires v.slotLen > 0 && SlotsPerGroup(v) > 0
  {
    if r < v.labFirst then c
    else (r - v.labFirst) + ((c - r) / SlotsPerGroup(v)) * labs
  }

  function BaseStart(start: int, test: int): int {
    if test == 1 then start + SlotLenTest1 else start
  }

  function InitialSlot(base: int, v: Variant, counts: seq<nat>, labs: nat, k: nat): Slot
    requires v.slotLen > 0 && SlotsPerGroup(v) > 0 && k < Total(counts)
  {
    var c := ColOf(counts, k);
    Slot(base + c * v.slotLen, GroupAt(v, labs, RoomOf(counts, k), c), NotYetSet)
  }

  /** The timetable as the constructor leaves it, column 0 starting at base. */
  function InitialSched(base: int, v: Variant, rooms: seq<string>, tutors: seq<string>,
                        numGroups: nat): Sched
    requires Fits(v, |rooms|, numGroups)
  {
    Layout(base, v, rooms, tutors, SlotCounts(v, |rooms|, numGroups), LabRooms(v, |rooms|))
  }

  /** The timetable laid out from the slot counts of its rooms. */
  function Layout(base: int, v: Variant, rooms: seq<string>, tutors: seq<string>,
                  counts: seq<nat>, labs: nat): Sched
    requires v.slotLen > 0 && SlotsPerGroup(v) > 0 && |counts| == |rooms| > 0
  {
    Sched(v.slotLen, rooms, tutors,
          seq(Total(counts), k requires 0 <= k < Total(counts) =>
                InitialSlot(base, v, counts, labs, k)),
          seq(|rooms|, r requires 0 <= r < |rooms| =>
                seq(Width(counts, labs), c requires 0 <= c => CellAt(counts, r, c))))
  }

  // ---------------------------------------------------------------------
  // Arithmetic helpers
  // ---------------------------------------------------------------------

  lemma MulMonotone(a: int, b: int, d: nat)
    requires a <= b
    ensures a * d <= b * d
  {
    assert b * d - a * d == (b - a) * d;
  }

  lemma DivOfBlock(j: int, d: int, m: int)
    requires d > 0 && 0 <= m < d
    ensures (j * d + m) / d == j && (j * d + m) % d == m
  {
    var x := j * d + m;
    var q, rm := x / d, x % d;
    assert (q - j) * d == m - rm;
    if q - j >= 1 {
      MulMonotone(1, q - j, d);
    } else if q - j <= -1 {
      MulMonotone(q - j, -1, d);
    }
  }

  lemma DivBelow(i: nat, a: nat, d: nat)
    requires d > 0 && i < a * d
    ensures i / d < a
  {
    if i / d >= a {
      MulMonotone(a, i / d, d);
    }
  }

  // ---------------------------------------------------------------------
  // Properties of the layout
  // ---------------------------------------------------------------------

  /** Lab room r + 1 never holds more slots than lab room r, and no lab room
      holds more than one group's slots more than another. */
  lemma {:induction false} EvenSpread(v: Variant, numRooms: nat, numGroups: nat, i: nat, j: nat)
    requires Fits(v, numRooms, numGroups) && v.labFirst <= i <= j < numRooms
    ensures var counts := SlotCounts(v, numRooms, numGroups);
            counts[j] <= counts[i] <= counts[j] + SlotsPerGroup(v)
    ensures SlotsPerGroup(v) <= SlotCounts(v, numRooms, numGroups)[j]
  {
    SlotCountAt(v, numRooms, numGroups, i);
    SlotCountAt(v, numRooms, numGroups, j);
    var labs := LabRooms(v, numRooms);
    var spg := SlotsPerGroup(v);
    var q := numGroups / labs;
    assert q >= 1;
    var gi, gj := GroupsInRoom(v, numRooms, numGroups, i), GroupsInRoom(v, numRooms, numGroups, j);
    assert gj <= gi <= gj + 1;
    MulMonotone(gj, gi, spg);
    MulMonotone(gi, gj + 1, spg);
    MulMonotone(1, gj, spg);
  }

  /** Slots of the first n lab rooms: n shares of q groups each, plus one
      residual group for each of them below rem. */
  function LabPrefix(spg: int, q: int, rem: int, n: nat): int {
    spg * (n * q + (if n < rem then n else rem))
  }

  lemma LabPrefixStep(spg: int, q: int, rem: int, n: nat)
    requires n > 0
    ensures LabPrefix(spg, q, rem, n)
              == LabPrefix(spg, q, rem, n - 1) + (q + (if n - 1 < rem then 1 else 0)) * spg
  {
    var m := if n - 1 < rem then n - 1 else rem;
    var e := if n - 1 < rem then 1 else 0;
    assert n * q == (n - 1) * q + q;
    assert spg * ((n - 1) * q + m + q + e) == spg * ((n - 1) * q + m) + (q + e) * spg;
  }

  lemma {:induction false} LabOffset(v: Variant, numRooms: nat, numGroups: nat, n: nat)
    requires Fits(v, numRooms, numGroups) && n <= LabRooms(v, numRooms)
    ensures var labs := LabRooms(v, numRooms);
            Offset(SlotCounts(v, numRooms, numGroups), v.labFirst + n)
              == (if v.labFirst == 1 then numGroups else 0)
                 + LabPrefix(SlotsPerGroup(v), numGroups / labs, numGroups % labs, n)
  {
    var counts := SlotCounts(v, numRooms, numGroups);
    var labs := LabRooms(v, numRooms);
    if n == 0 {
      if v.labFirst == 1 {
        SlotCountAt(v, numRooms, numGroups, 0);
        assert Offset(counts, 1) == Offset(counts, 0) + counts[0];
      }
    } else {
      LabOffset(v, numRooms, numGroups, n - 1);
      SlotCountAt(v, numRooms, numGroups, v.labFirst + n - 1);
      assert Offset(counts, v.labFirst + n)
               == Offset(counts, v.labFirst + n - 1) + counts[v.labFirst + n - 1];
      LabPrefixStep(SlotsPerGroup(v), numGroups / labs, numGroups % labs, n);
    }
  }

  /** The slot list has the length the constructor computes in advance:
      num_groups * (testlen - slotlen) / slotlen for test 1 and
      num_groups * testlen / slotlen for test 2. */
  lemma TotalSlots(test: int, numRooms: nat, numGroups: nat)
    requires VariantOf(test).Some? && Fits(VariantOf(test).value, numRooms, numGroups)
    ensures Total(SlotCounts(VariantOf(test).value, numRooms, numGroups)) == NumSlotsTotal(test, numGroups)
    ensures NumSlotsTotal(test, numGroups) == 4 * numGroups
  {
    var v := VariantOf(test).value;
    var labs := LabRooms(v, numRooms);
    LabOffset(v, numRooms, numGroups, labs);
    LabPrefixAll(SlotsPerGroup(v), numGroups, labs);
    TotalOfTest(test, numGroups);
  }

  lemma LabPrefixAll(spg: int, numGroups: nat, labs: nat)
    requires labs > 0
    ensures LabPrefix(spg, numGroups / labs, numGroups % labs, labs) == spg * numGroups
  {
    assert labs * (numGroups / labs) + numGroups % labs == numGroups;
  }

  lemma TotalOfTest(test: int, numGroups: nat)
    requires test == 1 || test == 2
    ensures NumSlotsTotal(test, numGroups) == 4 * numGroups
  {
    if test == 1 {
      assert numGroups * (TestLenTest1 - SlotLenTest1) == (4 * numGroups) * SlotLenTest1;
    } else {
      assert numGroups * TestLenTest2 == (4 * numGroups) * SlotLenTest2;
    }
  }

  /** The matrix of the initial timetable: rows are rooms, room r occupies the
      columns r .. r + counts[r] - 1, which all lie inside the matrix, and the
      slot in column c starts c slot lengths after column 0. */
  lemma InitialSlotAt(base: int, v: Variant, rooms: seq<string>, tutors: seq<string>,
                      numGroups: nat, k: nat)
    requires Fits(v, |rooms|, numGroups)
    requires k < Total(SlotCounts(v, |rooms|, numGroups))
    ensures InitialSched(base, v, rooms, tutors, numGroups).slots[k]
              == InitialSlot(base, v, SlotCounts(v, |rooms|, numGroups), LabRooms(v, |rooms|), k)
  {
  }

  lemma SlotOfCell(base: int, v: Variant, counts: seq<nat>, labs: nat, r: nat, c: nat)
    requires v.slotLen > 0 && SlotsPerGroup(v) > 0 && r < |counts| && r <= c < r + counts[r]
    ensures Offset(counts, r) + (c - r) < Total(counts)
    ensures RoomOf(counts, Offset(counts, r) + (c - r)) == r
    ensures ColOf(counts, Offset(counts, r) + (c - r)) == c
    ensures InitialSlot(base, v, counts, labs, Offset(counts, r) + (c - r))
              == Slot(base + c * v.slotLen, GroupAt(v, labs, r, c), NotYetSet)
  {
    ColOfAt(counts, r, c - r);
  }

  lemma InitialWellFormed(base: int, v: Variant, rooms: seq<string>, tutors: seq<string>, numGroups: nat)
    requires Fits(v, |rooms|, numGroups)
    ensures var s := InitialSched(base, v, rooms, tutors, numGroups);
            WellFormed(s) && Cols(s) == Width(SlotCounts(v, |rooms|, numGroups), LabRooms(v, |rooms|))
            && |s.slots| == Total(SlotCounts(v, |rooms|, numGroups))
  {
    InitialFits(v, rooms, numGroups);
    LayoutWellFormed(base, v, rooms, tutors, SlotCounts(v, |rooms|, numGroups), LabRooms(v, |rooms|));
  }

  lemma GridAlignment(base: int, v: Variant, rooms: seq<string>, tutors: seq<string>,
                      numGroups: nat, r: nat, c: nat)
    requires Fits(v, |rooms|, numGroups) && r < |rooms|
    ensures var s := InitialSched(base, v, rooms, tutors, numGroups);
            var counts := SlotCounts(v, |rooms|, numGroups);
            && WellFormed(s)
            && r + counts[r] <= Cols(s)
            && (c < Cols(s) ==>
                  && (s.grid[r][c].Holds? <==> r <= c < r + counts[r])
                  && (s.grid[r][c].Holds? ==> SlotIn(s, r, c).start == base + c * v.slotLen))
  {
    InitialFits(v, rooms, numGroups);
    LayoutAlignment(base, v, rooms, tutors, SlotCounts(v, |rooms|, numGroups), LabRooms(v, |rooms|), r, c);
  }

  lemma RoomOccupied(base: int, v: Variant, rooms: seq<string>, tutors: seq<string>,
                     numGroups: nat, r: nat)
    requires Fits(v, |rooms|, numGroups) && r < |rooms|
    ensures var s := InitialSched(base, v, rooms, tutors, numGroups);
            WellFormed(s) && r < Cols(s) && s.grid[r][r].Holds?
  {
    InitialFits(v, rooms, numGroups);
    RoomCountPositive(v, |rooms|, numGroups, r);
    LayoutAlignment(base, v, rooms, tutors, SlotCounts(v, |rooms|, numGroups), LabRooms(v, |rooms|), r, r);
  }

  /** Every room receives at least one slot. */
  lemma RoomCountPositive(v: Variant, numRooms: nat, numGroups: nat, r: nat)
    requires Fits(v, numRooms, numGroups) && r < numRooms
    ensures SlotCounts(v, numRooms, numGroups)[r] > 0
  {
    if v.labFirst <= r {
      EvenSpread(v, numRooms, numGroups, r, r);
    } else {
      SlotCountAt(v, numRooms, numGroups, r);
    }
  }

  lemma InitialGridCell(base: int, v: Variant, rooms: seq<string>, tutors: seq<string>,
                        numGroups: nat, r: nat, c: nat)
    requires Fits(v, |rooms|, numGroups) && r < |rooms|
    requires c < Width(SlotCounts(v, |rooms|, numGroups), LabRooms(v, |rooms|))
    ensures InitialSched(base, v, rooms, tutors, numGroups).grid[r][c]
              == CellAt(SlotCounts(v, |rooms|, numGroups), r, c)
  {
  }

  /** Every slot sits in exactly one cell: the one in its room's row and its
      own column. */
  lemma EachSlotOnce(base: int, v: Variant, rooms: seq<string>, tutors: seq<string>,
                     numGroups: nat, k: nat)
    requires Fits(v, |rooms|, numGroups)
    ensures var s := InitialSched(base, v, rooms, tutors, numGroups);
            var counts := SlotCounts(v, |rooms|, numGroups);
            k < |s.slots| ==>
              && RoomOf(counts, k) < |s.grid| && ColOf(counts, k) < Cols(s)
              && s.grid[RoomOf(counts, k)][ColOf(counts, k)] == Holds(k)
              && (forall r, c | 0 <= r < |s.grid| && 0 <= c < Cols(s) && s.grid[r][c] == Holds(k) ::
                    r == RoomOf(counts, k) && c == ColOf(counts, k))
  {
    InitialFits(v, rooms, numGroups);
    LayoutEachSlotOnce(base, v, rooms, tutors, SlotCounts(v, |rooms|, numGroups), LabRooms(v, |rooms|), k);
  }

  /** The slot list is in room-major order, and in time order within a room. */
  lemma RoomMajorOrder(base: int, v: Variant, rooms: seq<string>, tutors: seq<string>,
                       numGroups: nat, k: nat, k': nat)
    requires Fits(v, |rooms|, numGroups)
    ensures var s := InitialSched(base, v, rooms, tutors, numGroups);
            var counts := SlotCounts(v, |rooms|, numGroups);
            k < k' < |s.slots| ==>
              || RoomOf(counts, k) < RoomOf(counts, k')
              || (RoomOf(counts, k) == RoomOf(counts, k') && s.slots[k].start < s.slots[k'].start)
  {
    InitialFits(v, rooms, numGroups);
    LayoutRoomMajorOrder(base, v, rooms, tutors, SlotCounts(v, |rooms|, numGroups), LabRooms(v, |rooms|), k, k');
  }

  /** Test 2: the preparation room holds one slot per group, in columns
      0 .. num_groups - 1, and the slot in column c belongs to group c. */
  lemma PrepRoomGroups(base: int, v: Variant, rooms: seq<string>, tutors: seq<string>,
                       numGroups: nat, c: nat)
    requires Fits(v, |rooms|, numGroups) && v.labFirst == 1
    ensures var s := InitialSched(base, v, rooms, tutors, numGroups);
            WellFormed(s) && numGroups <= Cols(s) &&
            (c < Cols(s) ==>
               (s.grid[0][c].Holds? <==> c < numGroups) &&
               (s.grid[0][c].Holds? ==> SlotIn(s, 0, c).group == c))
  {
    var counts := SlotCounts(v, |rooms|, numGroups);
    var labs := LabRooms(v, |rooms|);
    InitialFits(v, rooms, numGroups);
    SlotCountAt(v, |rooms|, numGroups, 0);
    LayoutAlignment(base, v, rooms, tutors, counts, labs, 0, c);
    if c < numGroups {
      LayoutSlotIn(base, v, rooms, tutors, counts, labs, 0, c);
    }
  }

  /** The i-th slot of lab room r belongs to group
      (r - labFirst) + (i div SlotsPerGroup) * labs, which is a group number
      below num_groups; its room and its block of slots are determined by it. */
  lemma LabSlotGroup(base: int, v: Variant, rooms: seq<string>, tutors: seq<string>,
                     numGroups: nat, r: nat, i: nat)
    requires Fits(v, |rooms|, numGroups) && v.labFirst <= r < |rooms|
    requires i < SlotCounts(v, |rooms|, numGroups)[r]
    ensures var s := InitialSched(base, v, rooms, tutors, numGroups);
            var labs := LabRooms(v, |rooms|);
            && WellFormed(s) && r + i < Cols(s) && s.grid[r][r + i].Holds?
            && var g := SlotIn(s, r, r + i).group;
               && g == (r - v.labFirst) + (i / SlotsPerGroup(v)) * labs
               && 0 <= g < numGroups
               && g % labs == r - v.labFirst
               && g / labs == i / SlotsPerGroup(v)
  {
    LabSlotCell(base, v, rooms, tutors, numGroups, r, i);
    LabGroupBounds(v, |rooms|, numGroups, r, i);
  }

  lemma LabSlotCell(base: int, v: Variant, rooms: seq<string>, tutors: seq<string>,
                    numGroups: nat, r: nat, i: nat)
    requires Fits(v, |rooms|, numGroups) && v.labFirst <= r < |rooms|
    requires i < SlotCounts(v, |rooms|, numGroups)[r]
    ensures var s := InitialSched(base, v, rooms, tutors, numGroups);
            && WellFormed(s) && r + i < Cols(s) && s.grid[r][r + i].Holds?
            && SlotIn(s, r, r + i).group == GroupAt(v, LabRooms(v, |rooms|), r, r + i)
  {
    InitialFits(v, rooms, numGroups);
    LayoutSlotIn(base, v, rooms, tutors, SlotCounts(v, |rooms|, numGroups), LabRooms(v, |rooms|), r, r + i);
  }

  lemma LabGroupBounds(v: Variant, numRooms: nat, numGroups: nat, r: nat, i: nat)
    requires Fits(v, numRooms, numGroups) && v.labFirst <= r < numRooms
    requires i < SlotCounts(v, numRooms, numGroups)[r]
    ensures var labs := LabRooms(v, numRooms);
            var g := GroupAt(v, labs, r, r + i);
            && g == (r - v.labFirst) + (i / SlotsPerGroup(v)) * labs
            && 0 <= g < numGroups
            && g % labs == r - v.labFirst
            && g / labs == i / SlotsPerGroup(v)
  {
    var labs := LabRooms(v, numRooms);
    var spg := SlotsPerGroup(v);
    SlotCountAt(v, numRooms, numGroups, r);
    LabGroupArith(numGroups, labs, spg, r - v.labFirst, i);
  }

  /** The arithmetic behind LabGroupBounds: the i-th slot of lab room k
      belongs to group k + (i / spg) * labs, which is below n. */
  lemma LabGroupArith(n: nat, labs: nat, spg: nat, k: nat, i: nat)
    requires 1 <= labs <= n && spg >= 1 && k < labs
    requires i < (n / labs + (if k < n % labs then 1 else 0)) * spg
    ensures var g := k + (i / spg) * labs;
            0 <= g < n && g % labs == k && g / labs == i / spg
  {
    var j := i / spg;
    DivBelow(i, n / labs + (if k < n % labs then 1 else 0), spg);
    GroupBelowCount(n, labs, k, j);
    DivOfBlock(j, labs, k);
  }

  /** Block j of lab room k exists only while group k + j * labs is below n. */
  lemma GroupBelowCount(n: nat, labs: nat, k: nat, j: nat)
    requires 1 <= labs && k < labs
    requires j < n / labs + (if k < n % labs then 1 else 0)
    ensures k + j * labs < n
  {
    var q, rem := n / labs, n % labs;
    assert n == q * labs + rem;
    if k < rem {
      MulMonotone(j, q, labs);
    } else {
      MulMonotone(j, q - 1, labs);
      assert (q - 1) * labs == q * labs - labs;
    }
  }

  /** Group g owns block g div labs of lab room labFirst + g mod labs: the
      SlotsPerGroup consecutive cells of that block all hold slots of g. */
  lemma GroupOwnsBlock(base: int, v: Variant, rooms: seq<string>, tutors: seq<string>,
                       numGroups: nat, g: nat, i: nat)
    requires Fits(v, |rooms|, numGroups) && g < numGroups && i < SlotsPerGroup(v)
    ensures var s := InitialSched(base, v, rooms, tutors, numGroups);
            var labs := LabRooms(v, |rooms|);
            var r := v.labFirst + g % labs;
            var c := BlockColumn(r, g / labs, SlotsPerGroup(v), i);
            && WellFormed(s) && r < |s.grid| && 0 <= c < Cols(s) && s.grid[r][c].Holds?
            && SlotIn(s, r, c).group == g
  {
    var labs := LabRooms(v, |rooms|);
    var spg := SlotsPerGroup(v);
    var r := v.labFirst + g % labs;
    var k := (g / labs) * spg + i;
    GroupBlockFits(v, |rooms|, numGroups, g);
    BlockSlotGroup(v.labFirst, g, labs, spg, i);
    LabSlotGroup(base, v, rooms, tutors, numGroups, r, k);
  }

  /** Column of cell i of block j in room r, for blocks of spg cells. */
  function BlockColumn(r: int, j: int, spg: int, i: int): int
  {
    r + j * spg + i
  }

  /** The arithmetic behind GroupOwnsBlock: cell i of block g div labs lies
      in that block, and lab room g mod labs sees group g there. */
  lemma BlockSlotGroup(first: nat, g: nat, labs: int, spg: int, i: nat)
    requires labs >= 1 && i < spg
    ensures var r := first + g % labs;
            var k := (g / labs) * spg + i;
            && 0 <= k < (g / labs) * spg + spg
            && BlockColumn(r, g / labs, spg, i) == r + k
            && (r - first) + (k / spg) * labs == g
  {
    DivOfBlock(g / labs, spg, i);
  }

  lemma GroupBlockFits(v: Variant, numRooms: nat, numGroups: nat, g: nat)
    requires Fits(v, numRooms, numGroups) && g < numGroups
    ensures var labs := LabRooms(v, numRooms);
            var spg := SlotsPerGroup(v);
            var r := v.labFirst + g % labs;
            r < numRooms && (g / labs) * spg + spg <= SlotCounts(v, numRooms, numGroups)[r]
  {
    var labs := LabRooms(v, numRooms);
    var spg := SlotsPerGroup(v);
    var r := v.labFirst + g % labs;
    BlockOfGroup(numGroups, labs, g);
    SlotCountAt(v, numRooms, numGroups, r);
    MulMonotone(g / labs + 1, GroupsInRoom(v, numRooms, numGroups, r), spg);
  }

  /** Group g sits in block g / labs of lab room g % labs, and that block exists. */
  lemma BlockOfGroup(n: nat, labs: nat, g: nat)
    requires 1 <= labs && g < n
    ensures g / labs < n / labs + (if g % labs < n % labs then 1 else 0)
  {
    var q, rem := n / labs, n % labs;
    var k, j := g % labs, g / labs;
    assert g == j * labs + k;
    assert n == q * labs + rem;
    if k < rem {
      if j >= q + 1 { MulMonotone(q + 1, j, labs); }
    } else {
      if j >= q { MulMonotone(q, j, labs); }
    }
  }

  /** No slot keeps the group -1 it was created with: every slot belongs to a
      group below num_groups. */
  lemma GroupsAssigned(base: int, v: Variant, rooms: seq<string>, tutors: seq<string>,
                       numGroups: nat, k: nat)
    requires Fits(v, |rooms|, numGroups)
    ensures var s := InitialSched(base, v, rooms, tutors, numGroups);
            k < |s.slots| ==> 0 <= s.slots[k].group < numGroups
  {
    var s := InitialSched(base, v, rooms, tutors, numGroups);
    if k < |s.slots| {
      InitialSlotAt(base, v, rooms, tutors, numGroups, k);
      SlotGroupInRange(base, v, |rooms|, numGroups, k);
    }
  }

  lemma SlotGroupInRange(base: int, v: Variant, numRooms: nat, numGroups: nat, k: nat)
    requires Fits(v, numRooms, numGroups) && k < Total(SlotCounts(v, numRooms, numGroups))
    ensures 0 <= InitialSlot(base, v, SlotCounts(v, numRooms, numGroups), LabRooms(v, numRooms), k).group < numGroups
  {
    var counts := SlotCounts(v, numRooms, numGroups);
    var r := RoomOf(counts, k);
    var i := k - Offset(counts, r);
    ColOfAt(counts, r, i);
    if r >= v.labFirst {
      LabGroupBounds(v, numRooms, numGroups, r, i);
    } else {
      SlotCountAt(v, numRooms, numGroups, r);
    }
  }

  // ---------------------------------------------------------------------
  // Layout facts the measures rely on
  // ---------------------------------------------------------------------

  /** Every occupied cell in column c starts c slot lengths after base. */
  ghost predicate Aligned(s: Sched, base: int)
    requires WellFormed(s)
  {
    forall r, c | 0 <= r < |s.grid| && 0 <= c < Cols(s) && s.grid[r][c].Holds? ::
      SlotIn(s, r, c).start == base + c * s.slotLen
  }

  /** Every slot starts a whole number of slot lengths after base. */
  ghost predicate StartsAligned(s: Sched, base: int)
    requires s.slotLen > 0
  {
    forall k | 0 <= k < |s.slots| :: (s.slots[k].start - base) % s.slotLen == 0
  }

  /** Different occupied cells refer to different slots. */
  ghost predicate OneCellPerSlot(s: Sched)
    requires WellFormed(s)
  {
    forall r1, c1, r2, c2 |
      && 0 <= r1 < |s.grid| && 0 <= c1 < Cols(s) && 0 <= r2 < |s.grid| && 0 <= c2 < Cols(s)
      && s.grid[r1][c1].Holds? && s.grid[r2][c2].Holds? && s.grid[r1][c1] == s.grid[r2][c2] ::
      r1 == r2 && c1 == c2
  }

  lemma InitialAligned(base: int, v: Variant, rooms: seq<string>, tutors: seq<string>, numGroups: nat)
    requires Fits(v, |rooms|, numGroups)
    ensures var s := InitialSched(base, v, rooms, tutors, numGroups);
            WellFormed(s) && Aligned(s, base) && StartsAligned(s, base) && OneCellPerSlot(s)
  {
    InitialFits(v, rooms, numGroups);
    LayoutAligned(base, v, rooms, tutors, SlotCounts(v, |rooms|, numGroups), LabRooms(v, |rooms|));
  }

  lemma MulMod(c: int, d: nat)
    requires d > 0
    ensures (c * d) % d == 0
  {
    DivOfBlock(c, d, 0);
  }

  /** The layout facts hold for every schedule with the same layout, whatever
      its tutors. */
  lemma SameLayoutFacts(a: Sched, b: Sched, base: int)
    requires SameLayout(a, b) && WellFormed(b)
    ensures WellFormed(a)
    ensures Aligned(b, base) ==> Aligned(a, base)
    ensures StartsAligned(b, base) ==> StartsAligned(a, base)
    ensures OneCellPerSlot(b) ==> OneCellPerSlot(a)
    ensures forall r, n | 0 <= r < |b.grid| && RowBlock(b, r, n) :: RowBlock(a, r, n)
  {
  }

  /** Row r holds exactly the n columns r .. r + n - 1. */
  ghost predicate RowBlock(s: Sched, r: nat, n: nat)
    requires WellFormed(s) && r < |s.grid|
  {
    && r + n <= Cols(s)
    && forall c | 0 <= c < Cols(s) :: s.grid[r][c].Holds? <==> r <= c < r + n
  }

  /** Each room of the constructed layout is one non-empty block of columns,
      as long as the room's slot count. */
  lemma InitialRowBlocks(base: int, v: Variant, rooms: seq<string>, tutors: seq<string>, numGroups: nat)
    requires Fits(v, |rooms|, numGroups)
    ensures var s := InitialSched(base, v, rooms, tutors, numGroups);
            var counts := SlotCounts(v, |rooms|, numGroups);
            && WellFormed(s)
            && forall r | 0 <= r < |rooms| :: counts[r] > 0 && RowBlock(s, r, counts[r])
  {
    var counts := SlotCounts(v, |rooms|, numGroups);
    InitialFits(v, rooms, numGroups);
    LayoutRowBlocks(base, v, rooms, tutors, counts, LabRooms(v, |rooms|));
    forall r | 0 <= r < |rooms|
      ensures counts[r] > 0
    {
      RoomCountPositive(v, |rooms|, numGroups, r);
    }
  }

  // ---------------------------------------------------------------------
  // The layout for any slot counts
  // ---------------------------------------------------------------------

  /** Slot counts a layout can take: one per room, and at most one room more
      than the stagger allowance of the matrix, so that every room fits. */
  ghost predicate LayoutFits(v: Variant, rooms: seq<string>, counts: seq<nat>, labs: nat) {
    v.slotLen > 0 && SlotsPerGroup(v) > 0 && |counts| == |rooms| > 0 && 1 <= labs && |rooms| <= labs + 1
  }

  lemma InitialFits(v: Variant, rooms: seq<string>, numGroups: nat)
    requires Fits(v, |rooms|, numGroups)
    ensures LayoutFits(v, rooms, SlotCounts(v, |rooms|, numGroups), LabRooms(v, |rooms|))
  {
  }

  lemma LayoutCell(base: int, v: Variant, rooms: seq<string>, tutors: seq<string>,
                   counts: seq<nat>, labs: nat, r: nat, c: nat)
    requires LayoutFits(v, rooms, counts, labs) && r < |rooms|
    ensures var s := Layout(base, v, rooms, tutors, counts, labs);
            && r + counts[r] <= Width(counts, labs)
            && (c < Width(counts, labs) ==> s.grid[r][c] == CellAt(counts, r, c))
            && (r <= c < r + counts[r] ==>
                  && Offset(counts, r) + (c - r) < |s.slots|
                  && RoomOf(counts, Offset(counts, r) + (c - r)) == r
                  && ColOf(counts, Offset(counts, r) + (c - r)) == c
                  && s.slots[Offset(counts, r) + (c - r)]
                       == Slot(base + c * v.slotLen, GroupAt(v, labs, r, c), NotYetSet))
  {
    assert counts[r] <= Max(counts);
    if r <= c < r + counts[r] {
      SlotOfCell(base, v, counts, labs, r, c);
    }
  }

  lemma LayoutWellFormed(base: int, v: Variant, rooms: seq<string>, tutors: seq<string>,
                         counts: seq<nat>, labs: nat)
    requires LayoutFits(v, rooms, counts, labs)
    ensures var s := Layout(base, v, rooms, tutors, counts, labs);
            WellFormed(s) && Cols(s) == Width(counts, labs) && |s.slots| == Total(counts)
  {
    var s := Layout(base, v, rooms, tutors, counts, labs);
    forall r, c | 0 <= r < |s.grid| && 0 <= c < |s.grid[r]| && s.grid[r][c].Holds?
      ensures s.grid[r][c].index < |s.slots|
    {
      LayoutCell(base, v, rooms, tutors, counts, labs, r, c);
    }
  }

  lemma LayoutAlignment(base: int, v: Variant, rooms: seq<string>, tutors: seq<string>,
                        counts: seq<nat>, labs: nat, r: nat, c: nat)
    requires LayoutFits(v, rooms, counts, labs) && r < |rooms|
    ensures var s := Layout(base, v, rooms, tutors, counts, labs);
            && WellFormed(s)
            && r + counts[r] <= Cols(s)
            && (c < Cols(s) ==>
                  && (s.grid[r][c].Holds? <==> r <= c < r + counts[r])
                  && (s.grid[r][c].Holds? ==> SlotIn(s, r, c).start == base + c * v.slotLen))
  {
    LayoutWellFormed(base, v, rooms, tutors, counts, labs);
    LayoutCell(base, v, rooms, tutors, counts, labs, r, c);
  }

  /** An occupied cell of the layout refers to the slot of its column and group. */
  lemma LayoutSlotIn(base: int, v: Variant, rooms: seq<string>, tutors: seq<string>,
                     counts: seq<nat>, labs: nat, r: nat, c: nat)
    requires LayoutFits(v, rooms, counts, labs) && r < |rooms| && r <= c < r + counts[r]
    ensures var s := Layout(base, v, rooms, tutors, counts, labs);
            && WellFormed(s) && c < Cols(s) && s.grid[r][c].Holds?
            && SlotIn(s, r, c) == Slot(base + c * v.slotLen, GroupAt(v, labs, r, c), NotYetSet)
  {
    LayoutWellFormed(base, v, rooms, tutors, counts, labs);
    LayoutCell(base, v, rooms, tutors, counts, labs, r, c);
  }

  lemma LayoutEachSlotOnce(base: int, v: Variant, rooms: seq<string>, tutors: seq<string>,
                           counts: seq<nat>, labs: nat, k: nat)
    requires LayoutFits(v, rooms, counts, labs)
    ensures var s := Layout(base, v, rooms, tutors, counts, labs);
            k < |s.slots| ==>
              && RoomOf(counts, k) < |s.grid| && ColOf(counts, k) < Cols(s)
              && s.grid[RoomOf(counts, k)][ColOf(counts, k)] == Holds(k)
              && (forall r, c | 0 <= r < |s.grid| && 0 <= c < Cols(s) && s.grid[r][c] == Holds(k) ::
                    r == RoomOf(counts, k) && c == ColOf(counts, k))
  {
    var s := Layout(base, v, rooms, tutors, counts, labs);
    LayoutWellFormed(base, v, rooms, tutors, counts, labs);
    if k < |s.slots| {
      var r := RoomOf(counts, k);
      assert counts[r] <= Max(counts);
      assert CellAt(counts, r, ColOf(counts, k)) == Holds(k);
      forall r, c | 0 <= r < |s.grid| && 0 <= c < Cols(s) && s.grid[r][c] == Holds(k)
        ensures r == RoomOf(counts, k) && c == ColOf(counts, k)
      {
        assert CellAt(counts, r, c) == Holds(k);
        ColOfAt(counts, r, c - r);
      }
    }
  }

  lemma LayoutRoomMajorOrder(base: int, v: Variant, rooms: seq<string>, tutors: seq<string>,
                             counts: seq<nat>, labs: nat, k: nat, k': nat)
    requires LayoutFits(v, rooms, counts, labs)
    ensures var s := Layout(base, v, rooms, tutors, counts, labs);
            k < k' < |s.slots| ==>
              || RoomOf(counts, k) < RoomOf(counts, k')
              || (RoomOf(counts, k) == RoomOf(counts, k') && s.slots[k].start < s.slots[k'].start)
  {
    var s := Layout(base, v, rooms, tutors, counts, labs);
    if k < k' < |s.slots| {
      var r, r' := RoomOf(counts, k), RoomOf(counts, k');
      if r' < r {
        OffsetMonotone(counts, r' + 1, r);
      } else if r == r' {
        var c, c' := ColOf(counts, k), ColOf(counts, k');
        assert s.slots[k].start == base + c * v.slotLen;
        assert s.slots[k'].start == base + c' * v.slotLen;
        MulMonotone(c + 1, c', v.slotLen);
        assert (c + 1) * v.slotLen == c * v.slotLen + v.slotLen;
      }
    }
  }

  lemma LayoutAligned(base: int, v: Variant, rooms: seq<string>, tutors: seq<string>,
                      counts: seq<nat>, labs: nat)
    requires LayoutFits(v, rooms, counts, labs)
    ensures var s := Layout(base, v, rooms, tutors, counts, labs);
            WellFormed(s) && Aligned(s, base) && StartsAligned(s, base) && OneCellPerSlot(s)
  {
    var s := Layout(base, v, rooms, tutors, counts, labs);
    LayoutWellFormed(base, v, rooms, tutors, counts, labs);
    forall r, c | 0 <= r < |s.grid| && 0 <= c < Cols(s) && s.grid[r][c].Holds?
      ensures SlotIn(s, r, c).start == base + c * s.slotLen
    {
      LayoutAlignment(base, v, rooms, tutors, counts, labs, r, c);
    }
    forall k | 0 <= k < |s.slots|
      ensures (s.slots[k].start - base) % s.slotLen == 0
    {
      MulMod(ColOf(counts, k), s.slotLen);
    }
    forall r1, c1, r2, c2 |
      && 0 <= r1 < |s.grid| && 0 <= c1 < Cols(s) && 0 <= r2 < |s.grid| && 0 <= c2 < Cols(s)
      && s.grid[r1][c1].Holds? && s.grid[r2][c2].Holds? && s.grid[r1][c1] == s.grid[r2][c2]
      ensures r1 == r2 && c1 == c2
    {
      LayoutEachSlotOnce(base, v, rooms, tutors, counts, labs, s.grid[r1][c1].index);
    }
  }

  lemma LayoutRowBlocks(base: int, v: Variant, rooms: seq<string>, tutors: seq<string>,
                        counts: seq<nat>, labs: nat)
    requires LayoutFits(v, rooms, counts, labs)
    ensures var s := Layout(base, v, rooms, tutors, counts, labs);
            WellFormed(s) && forall r | 0 <= r < |rooms| :: RowBlock(s, r, counts[r])
  {
    var s := Layout(base, v, rooms, tutors, counts, labs);
    LayoutWellFormed(base, v, rooms, tutors, counts, labs);
    forall r | 0 <= r < |rooms|
      ensures RowBlock(s, r, counts[r])
    {
      forall c | 0 <= c < Cols(s)
        ensures s.grid[r][c].Holds? <==> r <= c < r + counts[r]
      {
        LayoutCell(base, v, rooms, tutors, counts, labs, r, c);
      }
      LayoutCell(base, v, rooms, tutors, counts, labs, r, 0);
    }
  }
}
