/**
 * The Timetable class of timetable.py (and its copy in generate.py): a slot
 * list and a room x column matrix of references into it, filled in place by
 * the constructor, re-tutored by apply_genome and exported as runs.
 */
module Timetable {
  import opened Wrappers
  import opened Schedule
  import opened Runs

  // ---------------------------------------------------------------------
  // The three phases of the constructor, on local state
  // ---------------------------------------------------------------------

  /** Number of slots per room: num_groups in the preparation room of test 2,
      and the lab groups spread evenly, residual groups to the first rooms. */
  method SlotCountsPerRoom(v: Variant, numRooms: nat, numGroups: nat) returns (counts: seq<nat>)
    requires Fits(v, numRooms, numGroups)
    ensures counts == SlotCounts(v, numRooms, numGroups)
  {
    var labs := numRooms - v.labFirst;
    counts := [];
    if v.labFirst == 1 {
      counts := [numGroups];
    }
    var minGroupsPerRoom := numGroups / labs;
    var residualGroups := numGroups % labs;
    var slotsPerGroup := (v.testLen - v.slotLen) / v.slotLen;
    var r := v.labFirst;
    while r < numRooms
      invariant v.labFirst <= r <= numRooms
      invariant counts == CountsBelow(v, numRooms, numGroups, r)
    {
      var groupsPerRoom := minGroupsPerRoom;
      if r - v.labFirst < residualGroups {
        groupsPerRoom := groupsPerRoom + 1;
      }
      counts := counts + [groupsPerRoom * slotsPerGroup];
      r := r + 1;
    }
  }

  /** Creates the slots room by room, each room one column (one slot length)
      later than the previous one, appending each slot to the list and
      entering its position in the matrix. */
  method CreateSlots(base: int, slotLen: nat, counts: seq<nat>, width: nat)
    returns (m: array2<Cell>, slots: seq<Slot>)
    requires slotLen > 0
    requires forall r | 0 <= r < |counts| :: r + counts[r] <= width
    ensures fresh(m) && m.Length0 == |counts| && m.Length1 == width
    ensures forall r, c | 0 <= r < |counts| && 0 <= c < width :: m[r, c] == CellAt(counts, r, c)
    ensures |slots| == Total(counts)
    ensures forall k | 0 <= k < |slots| :: slots[k] == NewSlot(base + ColOf(counts, k) * slotLen)
  {
    m := new Cell[|counts|, width]((_, _) => Empty);
    slots := [];
    var slotOffset := 0;
    var r := 0;
    while r < |counts|
      invariant 0 <= r <= |counts| && slotOffset == r
      invariant |slots| == Offset(counts, r) <= Total(counts)
      invariant forall k | 0 <= k < |slots| :: slots[k] == NewSlot(base + ColOf(counts, k) * slotLen)
      invariant forall r', c | 0 <= r' < |counts| && 0 <= c < width ::
                  m[r', c] == if r' < r then CellAt(counts, r', c) else Empty
    {
      OffsetMonotone(counts, r + 1, |counts|);
      var rStart := base + slotLen * slotOffset;
      var s := 0;
      while s < counts[r]
        invariant 0 <= s <= counts[r]
        invariant |slots| == Offset(counts, r) + s
        invariant forall k | 0 <= k < |slots| :: slots[k] == NewSlot(base + ColOf(counts, k) * slotLen)
        invariant forall r', c | 0 <= r' < |counts| && 0 <= c < width ::
                    m[r', c] == if r' < r || (r' == r && c < r + s) then CellAt(counts, r', c) else Empty
      {
        var sStart := rStart + slotLen * s;
        ColOfAt(counts, r, s);
        assert sStart == base + (r + s) * slotLen;
        slots := slots + [NewSlot(sStart)];
        m[r, s + slotOffset] := Holds(|slots| - 1);
        s := s + 1;
      }
      slotOffset := slotOffset + 1;
      r := r + 1;
    }
  }

  /** Test 2: the preparation-room slot in column c gets group c. */
  method AssignPrepGroups(m: array2<Cell>, counts: seq<nat>, slots0: seq<Slot>)
    returns (slots: seq<Slot>)
    requires 0 < |counts| == m.Length0 && counts[0] <= m.Length1
    requires forall c | 0 <= c < m.Length1 :: m[0, c] == CellAt(counts, 0, c)
    requires |slots0| == Total(counts)
    ensures |slots| == |slots0|
    ensures forall k | 0 <= k < |slots| ::
              slots[k] == if RoomOf(counts, k) == 0 then SetGroup(slots0[k], ColOf(counts, k)) else slots0[k]
  {
    var cols := m.Length1;
    slots := slots0;
    var c := 0;
    while c < cols
      invariant 0 <= c <= cols && |slots| == |slots0|
      invariant forall k | 0 <= k < |slots| ::
                  slots[k] == if RoomOf(counts, k) == 0 && ColOf(counts, k) < c
                              then SetGroup(slots0[k], ColOf(counts, k))
                              else slots0[k]
    {
      if m[0, c] != Empty {
        var k := m[0, c].index;
        ColOfAt(counts, 0, c);
        slots := slots[k := SetGroup(slots[k], c)];
      }
      c := c + 1;
    }
  }

  /** The group the counter of lab row r holds after `seen` occupied cells,
      and the slot counter beside it. */
  lemma CounterStep(v: Variant, labs: nat, r: nat, seen: nat, cnt: nat, group: int)
    requires v.slotLen > 0 && SlotsPerGroup(v) > 0 && v.labFirst <= r
    requires cnt == seen % SlotsPerGroup(v) && group == GroupAt(v, labs, r, r + seen)
    ensures cnt + 1 < SlotsPerGroup(v) ==>
              cnt + 1 == (seen + 1) % SlotsPerGroup(v) && group == GroupAt(v, labs, r, r + seen + 1)
    ensures cnt + 1 == SlotsPerGroup(v) ==>
              0 == (seen + 1) % SlotsPerGroup(v) && group + labs == GroupAt(v, labs, r, r + seen + 1)
  {
    var spg := SlotsPerGroup(v);
    var q := seen / spg;
    assert seen == q * spg + cnt;
    if cnt + 1 < spg {
      DivOfBlock(q, spg, cnt + 1);
    } else {
      assert seen + 1 == (q + 1) * spg;
      DivOfBlock(q + 1, spg, 0);
    }
  }

  /** Lab room r: the first slot_per_group occupied cells get group
      r - labFirst, and every further block of them the next group of this
      room, lab_rooms higher. */
  method AssignRowGroups(m: array2<Cell>, v: Variant, counts: seq<nat>, r: nat, slots0: seq<Slot>)
    returns (slots: seq<Slot>)
    requires v.slotLen > 0 && SlotsPerGroup(v) > 0 && v.labFirst <= r < |counts| == m.Length0
    requires r + counts[r] <= m.Length1
    requires forall c | 0 <= c < m.Length1 :: m[r, c] == CellAt(counts, r, c)
    requires |slots0| == Total(counts)
    ensures |slots| == |slots0|
    ensures forall k | 0 <= k < |slots| ::
              slots[k] == if RoomOf(counts, k) == r
                          then SetGroup(slots0[k], GroupAt(v, |counts| - v.labFirst, r, ColOf(counts, k)))
                          else slots0[k]
  {
    var labs := |counts| - v.labFirst;
    var slotsPerGroup := (v.testLen - v.slotLen) / v.slotLen;
    var cols := m.Length1;
    slots := slots0;
    var group := r - v.labFirst;
    var cntSlots := 0;
    ghost var seen := 0;
    DivOfBlock(0, slotsPerGroup, 0);
    var c := 0;
    while c < cols
      invariant 0 <= c <= cols && |slots| == |slots0|
      invariant seen == if c <= r then 0 else if c <= r + counts[r] then c - r else counts[r]
      invariant cntSlots == seen % slotsPerGroup && group == GroupAt(v, labs, r, r + seen)
      invariant forall k | 0 <= k < |slots| ::
                  slots[k] == if RoomOf(counts, k) == r && ColOf(counts, k) < c
                              then SetGroup(slots0[k], GroupAt(v, labs, r, ColOf(counts, k)))
                              else slots0[k]
    {
      if m[r, c] != Empty {
        var k := m[r, c].index;
        ColOfAt(counts, r, c - r);
        slots := slots[k := SetGroup(slots[k], group)];
        CounterStep(v, labs, r, seen, cntSlots, group);
        cntSlots := cntSlots + 1;
        seen := seen + 1;
        if cntSlots == slotsPerGroup {
          group := group + labs;
          cntSlots := 0;
        }
      }
      c := c + 1;
    }
  }

  /** Numbers the groups of all slots, preparation room first (test 2), then
      the lab rooms row by row. */
  method AssignGroups(m: array2<Cell>, v: Variant, counts: seq<nat>, slots0: seq<Slot>)
    returns (slots: seq<Slot>)
    requires v.slotLen > 0 && SlotsPerGroup(v) > 0 && v.labFirst <= 1 && v.labFirst < |counts| == m.Length0
    requires forall r | 0 <= r < |counts| :: r + counts[r] <= m.Length1
    requires forall r, c | 0 <= r < |counts| && 0 <= c < m.Length1 :: m[r, c] == CellAt(counts, r, c)
    requires |slots0| == Total(counts)
    ensures |slots| == |slots0|
    ensures forall k | 0 <= k < |slots| ::
              slots[k] == SetGroup(slots0[k], GroupAt(v, |counts| - v.labFirst, RoomOf(counts, k), ColOf(counts, k)))
  {
    var labs := |counts| - v.labFirst;
    var rows := m.Length0;
    slots := slots0;
    if v.labFirst == 1 {
      slots := AssignPrepGroups(m, counts, slots);
    }
    var r := v.labFirst;
    while r < rows
      invariant v.labFirst <= r <= rows && |slots| == |slots0|
      invariant forall k | 0 <= k < |slots| ::
                  slots[k] == if RoomOf(counts, k) < r
                              then SetGroup(slots0[k], GroupAt(v, labs, RoomOf(counts, k), ColOf(counts, k)))
                              else slots0[k]
    {
      slots := AssignRowGroups(m, v, counts, r, slots);
      r := r + 1;
    }
  }

  /** Lays out a whole timetable: the three phases above, with the matrix
      width the constructor computes (longest room plus the stagger). */
  method Build(base: int, v: Variant, rooms: seq<string>, tutors: seq<string>, numGroups: nat)
    returns (m: array2<Cell>, slots: seq<Slot>)
    requires Fits(v, |rooms|, numGroups)
    ensures fresh(m)
    ensures GridOf(m) == InitialSched(base, v, rooms, tutors, numGroups).grid
    ensures slots == InitialSched(base, v, rooms, tutors, numGroups).slots
  {
    var labs := |rooms| - v.labFirst;
    var counts := SlotCountsPerRoom(v, |rooms|, numGroups);
    var width := Max(counts) + labs;
    m, slots := CreateSlots(base, v.slotLen, counts, width);
    slots := AssignGroups(m, v, counts, slots);
    ghost var s := InitialSched(base, v, rooms, tutors, numGroups);
    InitialWellFormed(base, v, rooms, tutors, numGroups);
    forall r | 0 <= r < |rooms|
      ensures GridOf(m)[r] == s.grid[r]
    {
      forall c | 0 <= c < width
        ensures GridOf(m)[r][c] == s.grid[r][c]
      {
        InitialGridCell(base, v, rooms, tutors, numGroups, r, c);
      }
    }
    forall k | 0 <= k < |slots|
      ensures slots[k] == s.slots[k]
    {
      InitialSlotAt(base, v, rooms, tutors, numGroups, k);
    }
  }

  /** The matrix as a sequence of rows. */
  function GridOf(m: array2<Cell>): (g: seq<seq<Cell>>)
    reads m
    ensures |g| == m.Length0
    ensures forall r | 0 <= r < m.Length0 :: |g[r]| == m.Length1
    ensures forall r, c | 0 <= r < m.Length0 && 0 <= c < m.Length1 :: g[r][c] == m[r, c]
  {
    seq(m.Length0, r requires 0 <= r < m.Length0 reads m =>
      seq(m.Length1, c requires 0 <= c < m.Length1 reads m => m[r, c]))
  }

  // ---------------------------------------------------------------------
  // Genomes
  // ---------------------------------------------------------------------

  /** A genome assigns each slot, by position, the index of a tutor. */
  predicate GenomeFits(genome: seq<int>, numTutors: nat) {
    forall i | 0 <= i < |genome| :: 0 <= genome[i] < numTutors
  }

  /** The slots after a genome has been applied: slot s gets tutor
      tutors[genome[s]], start and group stay. */
  function Retutor(slots: seq<Slot>, tutors: seq<string>, genome: seq<int>): (r: seq<Slot>)
    requires |genome| == |slots| && GenomeFits(genome, |tutors|)
    ensures |r| == |slots|
    ensures forall k | 0 <= k < |r| ::
              r[k].tutor == tutors[genome[k]] && r[k].start == slots[k].start && r[k].group == slots[k].group
  {
    seq(|slots|, k requires 0 <= k < |slots| => SetTutor(slots[k], tutors[genome[k]]))
  }

  /** A genome changes tutors only, so the layout is kept. */
  lemma RetutorSameLayout(a: Sched, b: Sched, genome: seq<int>)
    requires SameLayout(a, b) && |genome| == |a.slots| && GenomeFits(genome, |a.tutors|)
    ensures SameLayout(a.(slots := Retutor(a.slots, a.tutors, genome)), b)
  {
  }

  /** Position of the first occurrence of t in tutors. */
  function IndexOf(tutors: seq<string>, t: string): (i: int)
    ensures i == -1 <==> t !in tutors
    ensures 0 <= i ==> i < |tutors| && tutors[i] == t && t !in tutors[..i]
  {
    if |tutors| == 0 then -1
    else if tutors[0] == t then 0
    else
      var i := IndexOf(tutors[1..], t);
      assert tutors[1..][..(if i < 0 then 0 else i)] == tutors[1..(if i < 0 then 0 else i) + 1];
      if i < 0 then -1 else i + 1
  }

  /** Reads a genome back off the tutors of the slots. */
  function GenomeOf(slots: seq<Slot>, tutors: seq<string>): (g: seq<int>)
    ensures |g| == |slots|
    ensures forall k | 0 <= k < |g| :: g[k] == IndexOf(tutors, slots[k].tutor)
  {
    seq(|slots|, k requires 0 <= k < |slots| => IndexOf(tutors, slots[k].tutor))
  }

  predicate Distinct(xs: seq<string>) {
    forall i, j | 0 <= i < j < |xs| :: xs[i] != xs[j]
  }

  /** Round trip: with distinct tutor names, the genome can be read back off
      the timetable it was applied to. */
  lemma GenomeRoundTrip(slots: seq<Slot>, tutors: seq<string>, genome: seq<int>)
    requires |genome| == |slots| && GenomeFits(genome, |tutors|) && Distinct(tutors)
    ensures GenomeOf(Retutor(slots, tutors, genome), tutors) == genome
  {
    var r := Retutor(slots, tutors, genome);
    forall k | 0 <= k < |genome|
      ensures IndexOf(tutors, r[k].tutor) == genome[k]
    {
    }
  }

  /** Applying a genome overwrites every tutor: a second application wins,
      so applying the same genome twice equals applying it once. */
  lemma RetutorOverwrites(slots: seq<Slot>, tutors: seq<string>, g1: seq<int>, g2: seq<int>)
    requires |g1| == |g2| == |slots| && GenomeFits(g1, |tutors|) && GenomeFits(g2, |tutors|)
    ensures Retutor(Retutor(slots, tutors, g1), tutors, g2) == Retutor(slots, tutors, g2)
  {
    var a, b := Retutor(Retutor(slots, tutors, g1), tutors, g2), Retutor(slots, tutors, g2);
    forall k | 0 <= k < |slots|
      ensures a[k] == b[k]
    {
    }
  }

  lemma RetutorIdempotent(slots: seq<Slot>, tutors: seq<string>, genome: seq<int>)
    requires |genome| == |slots| && GenomeFits(genome, |tutors|)
    ensures Retutor(Retutor(slots, tutors, genome), tutors, genome) == Retutor(slots, tutors, genome)
  {
    RetutorOverwrites(slots, tutors, genome, genome);
  }

  /** The tutors the slots had before never matter. */
  lemma RetutorForgets(a: seq<Slot>, b: seq<Slot>, tutors: seq<string>, genome: seq<int>)
    requires |genome| == |a| == |b| && GenomeFits(genome, |tutors|)
    requires forall k | 0 <= k < |a| :: a[k].start == b[k].start && a[k].group == b[k].group
    ensures Retutor(a, tutors, genome) == Retutor(b, tutors, genome)
  {
    var x, y := Retutor(a, tutors, genome), Retutor(b, tutors, genome);
    forall k | 0 <= k < |a|
      ensures x[k] == y[k]
    {
    }
  }

  // ---------------------------------------------------------------------
  // The class
  // ---------------------------------------------------------------------

  class Timetable {
    const test: int
    const rooms: seq<string>
    const tutors: seq<string>
    const numGroups: nat
    const testLen: nat
    const slotLen: nat
    /** Start of column 0 of the matrix (the first lab room's start). */
    ghost const base: int
    /** The slot list, in room-major and then time order. */
    var slots: seq<Slot>
    /** Rooms x columns; a column stands for a start time. */
    const matrix: array2<Cell>

    /** The state of the timetable as a value. */
    function View(): (s: Sched)
      reads this, matrix
      ensures s.slots == slots && s.rooms == rooms && s.tutors == tutors && s.slotLen == slotLen
      ensures s.grid == GridOf(matrix)
    {
      Sched(slotLen, rooms, tutors, slots, GridOf(matrix))
    }

    /** The layout the constructor builds, whatever tutors a genome gave
        the slots since. */
    ghost predicate Valid()
      reads this, matrix
    {
      && VariantOf(test).Some?
      && testLen == VariantOf(test).value.testLen
      && slotLen == VariantOf(test).value.slotLen
      && Fits(VariantOf(test).value, |rooms|, numGroups)
      && SameLayout(View(), InitialSched(base, VariantOf(test).value, rooms, tutors, numGroups))
    }

    /** timetable.py: the given start is that of the (left out) seminar slot
        in test 1, so the lab rooms start one 20-minute slot later. */
    constructor (start: int, test: int, rooms: seq<string>, tutors: seq<string>, numGroups: nat)
      requires test == 1 || test == 2
      requires Fits(VariantOf(test).value, |rooms|, numGroups)
      ensures this.test == test && this.rooms == rooms && this.tutors == tutors
      ensures this.numGroups == numGroups && base == BaseStart(start, test)
      ensures Valid()
      ensures View() == InitialSched(BaseStart(start, test), VariantOf(test).value, rooms, tutors, numGroups)
    {
      var v: Variant;
      var first := start;
      if test == 1 {
        v := Variant(TestLenTest1, SlotLenTest1, 0);
        first := start + SlotLenTest1;
      } else {
        v := Variant(TestLenTest2, SlotLenTest2, 1);
      }
      var m, ss := Build(first, v, rooms, tutors, numGroups);
      this.test, this.rooms, this.tutors, this.numGroups := test, rooms, tutors, numGroups;
      testLen, slotLen, base := v.testLen, v.slotLen, first;
      matrix, slots := m, ss;
    }

    /** generate.py: the caller has already shifted the start to the first
        lab room, and this copy of the constructor uses it as given. */
    constructor FromLabStart(start: int, test: int, rooms: seq<string>, tutors: seq<string>, numGroups: nat)
      requires test == 1 || test == 2
      requires Fits(VariantOf(test).value, |rooms|, numGroups)
      ensures this.test == test && this.rooms == rooms && this.tutors == tutors
      ensures this.numGroups == numGroups && base == start
      ensures Valid()
      ensures View() == InitialSched(start, VariantOf(test).value, rooms, tutors, numGroups)
    {
      var v: Variant;
      if test == 1 {
        v := Variant(TestLenTest1, SlotLenTest1, 0);
      } else {
        v := Variant(TestLenTest2, SlotLenTest2, 1);
      }
      var m, ss := Build(start, v, rooms, tutors, numGroups);
      this.test, this.rooms, this.tutors, this.numGroups := test, rooms, tutors, numGroups;
      testLen, slotLen, base := v.testLen, v.slotLen, start;
      matrix, slots := m, ss;
    }

    /** The slot list; it holds as many slots as the constructor computes
        in advance. */
    method GetSlots() returns (r: seq<Slot>)
      requires Valid()
      ensures r == slots
      ensures |r| == NumSlotsTotal(test, numGroups)
    {
      TotalSlots(test, |rooms|, numGroups);
      InitialWellFormed(base, VariantOf(test).value, rooms, tutors, numGroups);
      r := slots;
    }

    /** A valid timetable keeps the layout facts of the constructor. */
    lemma ValidFacts()
      requires Valid()
      ensures WellFormed(View()) && Aligned(View(), base) && StartsAligned(View(), base)
      ensures OneCellPerSlot(View())
    {
      var v := VariantOf(test).value;
      InitialAligned(base, v, rooms, tutors, numGroups);
      SameLayoutFacts(View(), InitialSched(base, v, rooms, tutors, numGroups), base);
    }

    /** Well formed, with a slot in every room: what the export needs. */
    ghost predicate Printable()
      reads this, matrix
    {
      && WellFormed(View()) && Cols(View()) == matrix.Length1 && |rooms| == matrix.Length0
      && forall r | 0 <= r < |rooms| :: |RowSlots(View(), r, Cols(View()))| > 0
    }

    /** A timetable the constructor built, re-tutored or not, can be
        exported. */
    lemma ValidPrintable()
      requires Valid()
      ensures Printable()
    {
      var v := VariantOf(test).value;
      InitialWellFormed(base, v, rooms, tutors, numGroups);
      forall r | 0 <= r < |rooms|
        ensures |RowSlots(View(), r, Cols(View()))| > 0
      {
        RoomOccupied(base, v, rooms, tutors, numGroups, r);
        RowSlotsNonEmpty(View(), r, r, Cols(View()));
      }
    }

    /** The export: for each room, one record per run of consecutive slots
        with the same tutor (see Runs.RoomRunsChain for their shape). */
    method PrintTimetable() returns (records: seq<seq<Run>>)
      requires Valid()
      ensures Printable() && |records| == |rooms|
      ensures forall r | 0 <= r < |rooms| ::
                records[r] == RoomRuns(rooms[r], RowSlots(View(), r, Cols(View())), slotLen)
    {
      ValidPrintable();
      records := PrintRooms();
    }

    method PrintRooms() returns (records: seq<seq<Run>>)
      requires Printable()
      ensures |records| == |rooms|
      ensures forall r | 0 <= r < |rooms| ::
                records[r] == RoomRuns(rooms[r], RowSlots(View(), r, Cols(View())), slotLen)
    {
      var rows := matrix.Length0;
      records := [];
      var r := 0;
      while r < rows
        invariant 0 <= r <= rows && |records| == r
        invariant forall r' | 0 <= r' < r ::
                    records[r'] == RoomRuns(rooms[r'], RowSlots(View(), r', Cols(View())), slotLen)
      {
        var lines := PrintRoom(r);
        records := records + [lines];
        r := r + 1;
      }
    }

    /** The records of room r: the loop over its columns, then the record
        that closes the last run one slot length after the last slot. */
    method PrintRoom(r: nat) returns (lines: seq<Run>)
      requires Printable() && r < |rooms|
      ensures lines == RoomRuns(rooms[r], RowSlots(View(), r, Cols(View())), slotLen)
    {
      var cols := matrix.Length1;
      var sLast: Option<Slot> := None;
      var s: Option<Slot> := None;
      lines := [];
      var c := 0;
      while c < cols
        invariant 0 <= c <= cols && (sLast.None? <==> s.None?) && (sLast.None? ==> lines == [])
        invariant Scan(rooms[r], RowSlots(View(), r, c))
                    == if sLast.None? then None else Some(Progress(lines, sLast.value, s.value))
      {
        ghost var xs := RowSlots(View(), r, c);
        if matrix[r, c] != Empty {
          s := Some(slots[matrix[r, c].index]);
          assert RowSlots(View(), r, c + 1) == xs + [s.value];
          ScanAppend(rooms[r], xs, s.value);
          if sLast == None {
            sLast := s;
          }
          if s.value.tutor != sLast.value.tutor {
            lines := lines + [Run(rooms[r], sLast.value.tutor, sLast.value.start, s.value.start)];
            sLast := s;
          }
        } else {
          assert RowSlots(View(), r, c + 1) == xs;
        }
        c := c + 1;
      }
      ScanSome(rooms[r], RowSlots(View(), r, cols));
      var end := s.value.start + slotLen;
      lines := lines + [Run(rooms[r], sLast.value.tutor, sLast.value.start, end)];
    }

    /** Sets the tutor of every slot from a genome of tutor indices; a genome
        of the wrong length is refused and changes nothing. */
    method ApplyGenome(genome: seq<int>) returns (o: Outcome<Error>)
      requires Valid()
      requires |genome| == |slots| ==> GenomeFits(genome, |tutors|)
      modifies this
      ensures Valid()
      ensures o.Fail? <==> |genome| != |old(slots)|
      ensures o.Fail? ==> o.error == WrongGenomeLength(|genome|, |old(slots)|) && slots == old(slots)
      ensures o.Pass? ==> slots == Retutor(old(slots), tutors, genome)
    {
      if |genome| != |slots| {
        return Fail(WrongGenomeLength(|genome|, |slots|));
      }
      ghost var before := View();
      var s := 0;
      while s < |slots|
        invariant 0 <= s <= |slots| == |old(slots)|
        invariant forall k | 0 <= k < |slots| ::
                    slots[k] == if k < s then SetTutor(old(slots)[k], tutors[genome[k]]) else old(slots)[k]
      {
        slots := slots[s := SetTutor(slots[s], tutors[genome[s]])];
        s := s + 1;
      }
      assert slots == Retutor(old(slots), tutors, genome);
      RetutorSameLayout(before, InitialSched(base, VariantOf(test).value, rooms, tutors, numGroups), genome);
      assert View() == before.(slots := slots);
      return Pass;
    }
  }

  /** The constructor with its error path: any test number but 1 and 2 is
      refused and nothing is built. */
  method New(start: int, test: int, rooms: seq<string>, tutors: seq<string>, numGroups: nat)
    returns (r: Result<Timetable, Error>)
    requires test == 1 || test == 2 ==> Fits(VariantOf(test).value, |rooms|, numGroups)
    ensures r.Failure? <==> test != 1 && test != 2
    ensures r.Failure? ==> r.error == WrongTestNumber(test)
    ensures r.Success? ==> fresh(r.value) && r.value.Valid()
    ensures r.Success? ==> r.value.View() == InitialSched(BaseStart(start, test), VariantOf(test).value, rooms, tutors, numGroups)
  {
    if test != 1 && test != 2 {
      return Failure(WrongTestNumber(test));
    }
    var t := new Timetable(start, test, rooms, tutors, numGroups);
    return Success(t);
  }
}
