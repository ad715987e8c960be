/**
 * The measures of measures.py: integer statistics over a timetable's slot
 * list and matrix. Each is a function of the timetable's value; the ones
 * the source computes with loops over the matrix also exist as methods on a
 * Timetable, proved equal to their function.
 */
module Measures {
  import opened Wrappers
  import opened Schedule
  import opened Timetable
  import opened Runs

  // ---------------------------------------------------------------------
  // Slots of a tutor
  // ---------------------------------------------------------------------

  /** The slots of xs that tutor t supervises, in order. */
  function OfTutor(xs: seq<Slot>, t: string): (r: seq<Slot>)
    ensures |r| <= |xs|
    ensures forall i | 0 <= i < |r| :: r[i].tutor == t
  {
    if |xs| == 0 then []
    else
      assert xs == xs[..|xs| - 1] + [xs[|xs| - 1]];
      OfTutor(xs[..|xs| - 1], t) + (if xs[|xs| - 1].tutor == t then [xs[|xs| - 1]] else [])
  }

  /** Number of positions of xs whose slot tutor t supervises. */
  function Occurrences(xs: seq<Slot>, t: string): nat
  {
    if |xs| == 0 then 0
    else Occurrences(xs[..|xs| - 1], t) + (if xs[|xs| - 1].tutor == t then 1 else 0)
  }

  /** count_slots_of_tutor: the number of slots tutor t supervises. */
  function CountSlotsOfTutor(s: Sched, t: string): (n: nat)
    ensures n <= |s.slots|
  {
    |OfTutor(s.slots, t)|
  }

  lemma {:induction false} OfTutorCount(xs: seq<Slot>, t: string)
    ensures |OfTutor(xs, t)| == Occurrences(xs, t)
    decreases |xs|
  {
    if |xs| > 0 {
      OfTutorCount(xs[..|xs| - 1], t);
    }
  }

  /** Sum over the tutors ts of their slot counts in xs. */
  function CountsOver(xs: seq<Slot>, ts: seq<string>): nat
  {
    if |ts| == 0 then 0
    else CountsOver(xs, ts[..|ts| - 1]) + |OfTutor(xs, ts[|ts| - 1])|
  }

  /** With distinct tutor names, the slot counts of the tutors add up to at
      most the number of slots, and to exactly that number when every slot's
      tutor is in the list. */
  lemma {:induction false} CountsOverSlots(xs: seq<Slot>, ts: seq<string>)
    requires Distinct(ts)
    ensures CountsOver(xs, ts) <= |xs|
    ensures (forall k | 0 <= k < |xs| :: xs[k].tutor in ts) ==> CountsOver(xs, ts) == |xs|
    decreases |xs|
  {
    if |xs| == 0 {
      CountsOverEmpty(ts);
    } else {
      var ys, x := xs[..|xs| - 1], xs[|xs| - 1];
      assert xs == ys + [x];
      assert forall k | 0 <= k < |ys| :: ys[k] == xs[k];
      CountsOverSlots(ys, ts);
      CountsOverStep(ys, x, ts);
      OneMatch(ts, x.tutor);
    }
  }

  lemma {:induction false} CountsOverEmpty(ts: seq<string>)
    ensures CountsOver([], ts) == 0
    decreases |ts|
  {
    if |ts| > 0 {
      CountsOverEmpty(ts[..|ts| - 1]);
    }
  }

  /** Number of entries of ts equal to t. */
  function Matches(ts: seq<string>, t: string): nat
  {
    if |ts| == 0 then 0 else Matches(ts[..|ts| - 1], t) + (if ts[|ts| - 1] == t then 1 else 0)
  }

  lemma {:induction false} CountsOverStep(ys: seq<Slot>, x: Slot, ts: seq<string>)
    ensures CountsOver(ys + [x], ts) == CountsOver(ys, ts) + Matches(ts, x.tutor)
    decreases |ts|
  {
    assert (ys + [x])[..|ys|] == ys;
    if |ts| > 0 {
      CountsOverStep(ys, x, ts[..|ts| - 1]);
    }
  }

  lemma {:induction false} OneMatch(ts: seq<string>, t: string)
    requires Distinct(ts)
    ensures Matches(ts, t) == if t in ts then 1 else 0
    decreases |ts|
  {
    if |ts| > 0 {
      var init := ts[..|ts| - 1];
      OneMatch(init, t);
      assert ts == init + [ts[|ts| - 1]];
      if ts[|ts| - 1] == t {
        assert t !in init by {
          forall i | 0 <= i < |init| ensures init[i] != t {
            assert init[i] == ts[i];
          }
        }
      }
    }
  }

  lemma OfTutorAppend(xs: seq<Slot>, x: Slot, t: string)
    ensures OfTutor(xs + [x], t) == OfTutor(xs, t) + (if x.tutor == t then [x] else [])
  {
    assert (xs + [x])[..|xs|] == xs;
  }

  // ---------------------------------------------------------------------
  // Concurrent slots
  // ---------------------------------------------------------------------

  /** Column c of row 0 holds a slot that starts at t0. */
  predicate StartsAt(s: Sched, c: nat, t0: int)
    requires WellFormed(s) && c < Cols(s)
  {
    s.grid[0][c].Holds? && SlotIn(s, 0, c).start == t0
  }

  /** The first of the columns 0 .. n-1 whose row-0 slot starts at t0. */
  function FirstMatch(s: Sched, t0: int, n: nat): (r: Option<nat>)
    requires WellFormed(s) && n <= Cols(s)
    ensures r.Some? ==> r.value < n && StartsAt(s, r.value, t0)
    ensures r.Some? ==> forall c | 0 <= c < r.value :: !StartsAt(s, c, t0)
    ensures r.None? ==> forall c | 0 <= c < n :: !StartsAt(s, c, t0)
  {
    if n == 0 then None
    else match FirstMatch(s, t0, n - 1)
      case Some(c) => Some(c)
      case None => if StartsAt(s, n - 1, t0) then Some(n - 1) else None
  }

  /** The slots of the first n rows of column c, top to bottom. */
  function ColumnSlots(s: Sched, c: nat, n: nat): (xs: seq<Slot>)
    requires WellFormed(s) && c < Cols(s) && n <= |s.grid|
    ensures |xs| <= n
  {
    if n == 0 then []
    else ColumnSlots(s, c, n - 1) + (if s.grid[n - 1][c].Holds? then [SlotIn(s, n - 1, c)] else [])
  }

  /** get_concurrent_slots: the column of the first row-0 slot starting at
      t0, or nothing when no row-0 slot starts then. */
  function ConcurrentSlots(s: Sched, t0: int): (xs: seq<Slot>)
    requires WellFormed(s)
    ensures |xs| <= |s.grid|
  {
    match FirstMatch(s, t0, Cols(s))
    case None => []
    case Some(c) => ColumnSlots(s, c, |s.grid|)
  }

  lemma {:induction false} ColumnStarts(s: Sched, base: int, c: nat, n: nat)
    requires WellFormed(s) && Aligned(s, base) && c < Cols(s) && n <= |s.grid|
    ensures forall x | x in ColumnSlots(s, c, n) :: x.start == base + c * s.slotLen
    decreases n
  {
    if n > 0 {
      ColumnStarts(s, base, c, n - 1);
    }
  }

  lemma ColumnStartsDiffer(base: int, d: nat, c1: int, c2: int)
    requires d > 0 && c1 != c2
    ensures base + c1 * d != base + c2 * d
  {
    if c1 < c2 {
      MulMonotone(c1 + 1, c2, d);
    } else {
      MulMonotone(c2 + 1, c1, d);
    }
  }

  /** On an aligned grid every concurrent slot starts at the time asked for. */
  lemma ConcurrentShareStart(s: Sched, base: int, t0: int)
    requires WellFormed(s) && Aligned(s, base)
    ensures forall x | x in ConcurrentSlots(s, t0) :: x.start == t0
  {
    var m := FirstMatch(s, t0, Cols(s));
    if m.Some? {
      ColumnStarts(s, base, m.value, |s.grid|);
    }
  }

  /** On an aligned grid, the start time of a column with an empty row-0 cell
      finds no concurrent slots, whatever the other rows of that column hold. */
  lemma EmptyHeadHidesColumn(s: Sched, base: int, c: nat)
    requires WellFormed(s) && Aligned(s, base) && c < Cols(s) && s.grid[0][c].Empty?
    ensures ConcurrentSlots(s, base + c * s.slotLen) == []
  {
    var t0 := base + c * s.slotLen;
    forall c' | 0 <= c' < Cols(s) ensures !StartsAt(s, c', t0) {
      if c' != c {
        ColumnStartsDiffer(base, s.slotLen, c', c);
      }
    }
  }

  /** On an aligned grid, the start time of a column with an occupied row-0
      cell finds exactly that column. */
  lemma OccupiedHeadFindsColumn(s: Sched, base: int, c: nat)
    requires WellFormed(s) && Aligned(s, base) && c < Cols(s) && s.grid[0][c].Holds?
    ensures ConcurrentSlots(s, base + c * s.slotLen) == ColumnSlots(s, c, |s.grid|)
  {
    var t0 := base + c * s.slotLen;
    forall c' | 0 <= c' < c ensures !StartsAt(s, c', t0) {
      ColumnStartsDiffer(base, s.slotLen, c', c);
    }
    FirstMatchIs(s, t0, c, Cols(s));
  }

  /** A matching column with no match before it is the first match. */
  lemma {:induction false} FirstMatchIs(s: Sched, t0: int, c: nat, n: nat)
    requires WellFormed(s) && c < n <= Cols(s) && StartsAt(s, c, t0)
    requires forall c' | 0 <= c' < c :: !StartsAt(s, c', t0)
    ensures FirstMatch(s, t0, n) == Some(c)
    decreases n
  {
    if c < n - 1 {
      FirstMatchIs(s, t0, c, n - 1);
    }
  }

  /** The inner loop of get_concurrent_slots: column c, top to bottom. */
  method CollectColumn(tt: Timetable, c: nat) returns (cc: seq<Slot>)
    requires WellFormed(tt.View()) && c < tt.matrix.Length1
    ensures cc == ColumnSlots(tt.View(), c, tt.matrix.Length0)
  {
    ghost var s := tt.View();
    var rows := tt.matrix.Length0;
    cc := [];
    var r := 0;
    while r < rows
      invariant 0 <= r <= rows && cc == ColumnSlots(s, c, r)
    {
      if tt.matrix[r, c] != Empty {
        cc := cc + [tt.slots[tt.matrix[r, c].index]];
      }
      r := r + 1;
    }
  }

  /** get_concurrent_slots: scan row 0 for the first slot starting at t0,
      then collect its column. */
  method GetConcurrentSlots(tt: Timetable, t0: int) returns (cc: seq<Slot>)
    requires WellFormed(tt.View())
    ensures cc == ConcurrentSlots(tt.View(), t0)
  {
    ghost var s := tt.View();
    var cols := tt.matrix.Length1;
    cc := [];
    var c := 0;
    while c < cols
      invariant 0 <= c <= cols && cc == []
      invariant FirstMatch(s, t0, c).None?
    {
      if tt.matrix[0, c] == Empty {
        c := c + 1;
        continue;
      }
      if tt.slots[tt.matrix[0, c].index].start == t0 {
        assert StartsAt(s, c, t0);
        FirstMatchIs(s, t0, c, cols);
        cc := CollectColumn(tt, c);
        return;
      }
      c := c + 1;
    }
  }

  // ---------------------------------------------------------------------
  // Overlaps
  // ---------------------------------------------------------------------

  /** The slot's column, found through its start time, holds tutor t more
      than once. */
  predicate Overlapping(s: Sched, t: string, x: Slot)
    requires WellFormed(s)
  {
    |OfTutor(ConcurrentSlots(s, x.start), t)| > 1
  }

  /** How many of the slots xs are overlapping for tutor t. */
  function OverlapsIn(s: Sched, t: string, xs: seq<Slot>): (n: nat)
    requires WellFormed(s)
    ensures n <= |xs|
  {
    if |xs| == 0 then 0
    else OverlapsIn(s, t, xs[..|xs| - 1]) + (if Overlapping(s, t, xs[|xs| - 1]) then 1 else 0)
  }

  /** count_overlaps_of_tutor: the slots of t whose concurrent slots hold t
      more than once; never more than t's slot count. */
  function TutorOverlaps(s: Sched, t: string): (n: nat)
    requires WellFormed(s)
    ensures n <= CountSlotsOfTutor(s, t)
  {
    OverlapsIn(s, t, OfTutor(s.slots, t))
  }

  /** count_overlaps, over the first tutors ts. */
  function OverlapsOver(s: Sched, ts: seq<string>): nat
    requires WellFormed(s)
  {
    if |ts| == 0 then 0 else OverlapsOver(s, ts[..|ts| - 1]) + TutorOverlaps(s, ts[|ts| - 1])
  }

  /** count_overlaps: the per-tutor overlaps summed over the tutor list. */
  function Overlaps(s: Sched): nat
    requires WellFormed(s)
  {
    OverlapsOver(s, s.tutors)
  }

  /** count_possible_overlaps: every slot could clash with a slot in each of
      the other rooms. No clash is possible with a single room or no slots;
      with two or more rooms there are at least as many as slots. */
  function CountPossibleOverlaps(s: Sched): (r: int)
    ensures |s.rooms| >= 1 ==> r >= 0
    ensures |s.rooms| >= 1 ==> (r == 0 <==> |s.slots| == 0 || |s.rooms| == 1)
    ensures |s.rooms| >= 2 ==> r >= |s.slots|
  {
    |s.slots| * (|s.rooms| - 1)
  }

  lemma {:induction false} OverlapsOverBound(s: Sched, ts: seq<string>)
    requires WellFormed(s)
    ensures OverlapsOver(s, ts) <= CountsOver(s.slots, ts)
    decreases |ts|
  {
    if |ts| > 0 {
      OverlapsOverBound(s, ts[..|ts| - 1]);
    }
  }

  /** With distinct tutor names the overlaps never exceed the number of
      slots, hence never the possible overlaps once there are two rooms. */
  lemma OverlapsBounded(s: Sched)
    requires WellFormed(s) && Distinct(s.tutors)
    ensures Overlaps(s) <= |s.slots|
    ensures |s.rooms| >= 2 ==> Overlaps(s) <= CountPossibleOverlaps(s)
  {
    OverlapsOverBound(s, s.tutors);
    CountsOverSlots(s.slots, s.tutors);
    if |s.rooms| >= 2 {
      AtMostMultiple(|s.slots|, |s.rooms| - 1);
    }
  }

  lemma AtMostMultiple(n: nat, k: int)
    requires k >= 1
    ensures n <= n * k
  {
    MulMonotone(1, k, n);
  }

  /** Tutor t holds at most one slot in each column. */
  ghost predicate OncePerColumn(s: Sched, t: string)
    requires WellFormed(s)
  {
    forall c, r1, r2 | 0 <= c < Cols(s) && 0 <= r1 < r2 < |s.grid| ::
      s.grid[r1][c].Holds? && s.grid[r2][c].Holds? ==>
        SlotIn(s, r1, c).tutor != t || SlotIn(s, r2, c).tutor != t
  }

  /** At most one slot of t among the first n rows of column c; when there
      is one, w is its row. */
  lemma {:induction false} ColumnOnce(s: Sched, t: string, c: nat, n: nat) returns (w: nat)
    requires WellFormed(s) && OncePerColumn(s, t) && c < Cols(s) && n <= |s.grid|
    ensures |OfTutor(ColumnSlots(s, c, n), t)| <= 1
    ensures |OfTutor(ColumnSlots(s, c, n), t)| == 1 ==>
              w < n && s.grid[w][c].Holds? && SlotIn(s, w, c).tutor == t
    decreases n
  {
    if n == 0 {
      return 0;
    }
    var prev := ColumnSlots(s, c, n - 1);
    w := ColumnOnce(s, t, c, n - 1);
    if w < n - 1 {
      OnceAt(s, t, c, w, n - 1);
    }
    if s.grid[n - 1][c].Holds? {
      var x := SlotIn(s, n - 1, c);
      assert ColumnSlots(s, c, n) == prev + [x];
      OfTutorAppend(prev, x, t);
      if x.tutor == t {
        w := n - 1;
      }
    } else {
      assert ColumnSlots(s, c, n) == prev;
    }
  }

  lemma OnceAt(s: Sched, t: string, c: nat, r1: nat, r2: nat)
    requires WellFormed(s) && OncePerColumn(s, t) && c < Cols(s) && r1 < r2 < |s.grid|
    ensures s.grid[r1][c].Holds? && s.grid[r2][c].Holds? ==>
              SlotIn(s, r1, c).tutor != t || SlotIn(s, r2, c).tutor != t
  {
  }

  lemma {:induction false} NoOverlapsIn(s: Sched, t: string, xs: seq<Slot>)
    requires WellFormed(s) && OncePerColumn(s, t)
    ensures OverlapsIn(s, t, xs) == 0
    decreases |xs|
  {
    if |xs| > 0 {
      NoOverlapsIn(s, t, xs[..|xs| - 1]);
      var m := FirstMatch(s, xs[|xs| - 1].start, Cols(s));
      if m.Some? {
        var _ := ColumnOnce(s, t, m.value, |s.grid|);
      }
    }
  }

  /** A tutor with at most one slot per column has no overlaps. */
  lemma NoOverlaps(s: Sched, t: string)
    requires WellFormed(s) && OncePerColumn(s, t)
    ensures TutorOverlaps(s, t) == 0
  {
    NoOverlapsIn(s, t, OfTutor(s.slots, t));
  }

  lemma OverlapsInAppend(s: Sched, t: string, xs: seq<Slot>, x: Slot)
    requires WellFormed(s)
    ensures OverlapsIn(s, t, xs + [x]) == OverlapsIn(s, t, xs) + (if Overlapping(s, t, x) then 1 else 0)
  {
    assert (xs + [x])[..|xs|] == xs;
  }

  lemma OverlapsInPrefix(s: Sched, t: string, xs: seq<Slot>, i: nat)
    requires WellFormed(s) && i < |xs|
    ensures OverlapsIn(s, t, xs[..i + 1]) == OverlapsIn(s, t, xs[..i]) + (if Overlapping(s, t, xs[i]) then 1 else 0)
  {
    assert xs[..i + 1][..i] == xs[..i];
  }

  /** One more slot adds one overlap when it is t's and overlapping. */
  lemma OverlapsStep(s: Sched, t: string, xs: seq<Slot>)
    requires WellFormed(s) && |xs| > 0
    ensures OverlapsIn(s, t, OfTutor(xs, t)) == OverlapsIn(s, t, OfTutor(xs[..|xs| - 1], t))
              + (if xs[|xs| - 1].tutor == t && Overlapping(s, t, xs[|xs| - 1]) then 1 else 0)
  {
    var ys, y := xs[..|xs| - 1], xs[|xs| - 1];
    assert xs == ys + [y];
    OfTutorAppend(ys, y, t);
    if y.tutor == t {
      OverlapsInAppend(s, t, OfTutor(ys, t), y);
    } else {
      assert OfTutor(xs, t) == OfTutor(ys, t);
    }
  }

  lemma {:induction false} OverlapsAtLeastOne(s: Sched, t: string, xs: seq<Slot>, k: nat)
    requires WellFormed(s) && k < |xs| && xs[k].tutor == t && Overlapping(s, t, xs[k])
    ensures OverlapsIn(s, t, OfTutor(xs, t)) >= 1
    decreases |xs|
  {
    var ys := xs[..|xs| - 1];
    OverlapsStep(s, t, xs);
    var here := OverlapsIn(s, t, OfTutor(xs, t));
    var before := OverlapsIn(s, t, OfTutor(ys, t));
    if k < |ys| {
      assert ys[k] == xs[k];
      assert here >= before;
      OverlapsAtLeastOne(s, t, ys, k);
    } else {
      assert here == before + 1;
    }
  }

  lemma {:induction false} OverlapsAtLeastTwo(s: Sched, t: string, xs: seq<Slot>, k1: nat, k2: nat)
    requires WellFormed(s) && k1 < k2 < |xs|
    requires xs[k1].tutor == t && Overlapping(s, t, xs[k1])
    requires xs[k2].tutor == t && Overlapping(s, t, xs[k2])
    ensures OverlapsIn(s, t, OfTutor(xs, t)) >= 2
    decreases |xs|
  {
    var ys := xs[..|xs| - 1];
    assert ys[k1] == xs[k1];
    OverlapsStep(s, t, xs);
    var here := OverlapsIn(s, t, OfTutor(xs, t));
    var before := OverlapsIn(s, t, OfTutor(ys, t));
    if k2 == |ys| {
      assert here == before + 1;
      OverlapsAtLeastOne(s, t, ys, k1);
    } else {
      assert ys[k2] == xs[k2];
      assert here >= before;
      OverlapsAtLeastTwo(s, t, ys, k1, k2);
    }
  }

  /** Rows r1 < r2 of column c both hold slots of t: the column's slots
      hold t at least twice. */
  lemma {:induction false} ColumnTwice(s: Sched, t: string, c: nat, n: nat, r1: nat, r2: nat)
    requires WellFormed(s) && c < Cols(s) && r1 < r2 < n <= |s.grid|
    requires s.grid[r1][c].Holds? && SlotIn(s, r1, c).tutor == t
    requires s.grid[r2][c].Holds? && SlotIn(s, r2, c).tutor == t
    ensures |OfTutor(ColumnSlots(s, c, n), t)| >= 2
    decreases n
  {
    ColumnStep(s, t, c, n);
    if r2 == n - 1 {
      ColumnOnceAtLeast(s, t, c, n - 1, r1);
    } else {
      ColumnTwice(s, t, c, n - 1, r1, r2);
    }
  }

  lemma {:induction false} ColumnOnceAtLeast(s: Sched, t: string, c: nat, n: nat, r: nat)
    requires WellFormed(s) && c < Cols(s) && r < n <= |s.grid|
    requires s.grid[r][c].Holds? && SlotIn(s, r, c).tutor == t
    ensures |OfTutor(ColumnSlots(s, c, n), t)| >= 1
    decreases n
  {
    ColumnStep(s, t, c, n);
    if r < n - 1 {
      ColumnOnceAtLeast(s, t, c, n - 1, r);
    }
  }

  /** One more row adds its slot to the column's slots of t when t holds it. */
  lemma ColumnStep(s: Sched, t: string, c: nat, n: nat)
    requires WellFormed(s) && c < Cols(s) && 0 < n <= |s.grid|
    ensures |OfTutor(ColumnSlots(s, c, n), t)| == |OfTutor(ColumnSlots(s, c, n - 1), t)|
              + (if s.grid[n - 1][c].Holds? && SlotIn(s, n - 1, c).tutor == t then 1 else 0)
  {
    var prev := ColumnSlots(s, c, n - 1);
    if s.grid[n - 1][c].Holds? {
      assert ColumnSlots(s, c, n) == prev + [SlotIn(s, n - 1, c)];
      OfTutorAppend(prev, SlotIn(s, n - 1, c), t);
    } else {
      assert ColumnSlots(s, c, n) == prev;
    }
  }

  /** A double booking of t in a column whose row-0 cell is occupied counts
      at least two overlaps: each of the two slots sees the other. */
  lemma DoubleBookingCounted(s: Sched, base: int, t: string, c: nat, r1: nat, r2: nat)
    requires WellFormed(s) && Aligned(s, base) && OneCellPerSlot(s)
    requires c < Cols(s) && r1 < r2 < |s.grid| && s.grid[0][c].Holds?
    requires s.grid[r1][c].Holds? && SlotIn(s, r1, c).tutor == t
    requires s.grid[r2][c].Holds? && SlotIn(s, r2, c).tutor == t
    ensures TutorOverlaps(s, t) >= 2
  {
    OccupiedHeadFindsColumn(s, base, c);
    ColumnTwice(s, t, c, |s.grid|, r1, r2);
    var k1, k2 := s.grid[r1][c].index, s.grid[r2][c].index;
    assert k1 != k2;
    assert Overlapping(s, t, s.slots[k1]) && Overlapping(s, t, s.slots[k2]);
    if k1 < k2 {
      OverlapsAtLeastTwo(s, t, s.slots, k1, k2);
    } else {
      OverlapsAtLeastTwo(s, t, s.slots, k2, k1);
    }
  }

  /** count_overlaps_of_tutor: for each slot of t, filter its concurrent
      slots by t and count the slot when more than one remains. */
  method CountOverlapsOfTutor(tt: Timetable, t: string) returns (cnt: nat)
    requires WellFormed(tt.View())
    ensures cnt == TutorOverlaps(tt.View(), t)
  {
    ghost var s := tt.View();
    cnt := 0;
    var mine := OfTutor(tt.slots, t);
    var i := 0;
    while i < |mine|
      invariant 0 <= i <= |mine| && cnt == OverlapsIn(s, t, mine[..i])
    {
      var cc := GetConcurrentSlots(tt, mine[i].start);
      cc := OfTutor(cc, t);
      OverlapsInPrefix(s, t, mine, i);
      if |cc| > 1 {
        cnt := cnt + 1;
      }
      i := i + 1;
    }
    assert mine[..i] == mine;
  }

  /** count_overlaps: the overlaps of every tutor in the tutor list. */
  method CountOverlaps(tt: Timetable) returns (cnt: nat)
    requires WellFormed(tt.View())
    ensures cnt == Overlaps(tt.View())
  {
    cnt := 0;
    var i := 0;
    while i < |tt.tutors|
      invariant 0 <= i <= |tt.tutors| && cnt == OverlapsOver(tt.View(), tt.tutors[..i])
    {
      var n := CountOverlapsOfTutor(tt, tt.tutors[i]);
      assert tt.tutors[..i + 1][..i] == tt.tutors[..i];
      cnt := cnt + n;
      i := i + 1;
    }
    assert tt.tutors[..i] == tt.tutors;
  }

  // ---------------------------------------------------------------------
  // Start times of a tutor, sorted
  // ---------------------------------------------------------------------

  lemma {:induction false} OfTutorFrom(xs: seq<Slot>, t: string)
    ensures forall x | x in OfTutor(xs, t) :: x in xs
    decreases |xs|
  {
    if |xs| > 0 {
      var ys := xs[..|xs| - 1];
      OfTutorFrom(ys, t);
      assert forall x | x in ys :: x in xs;
    }
  }

  function Starts(xs: seq<Slot>): (r: seq<int>)
    ensures |r| == |xs| && forall i | 0 <= i < |xs| :: r[i] == xs[i].start
  {
    seq(|xs|, i requires 0 <= i < |xs| => xs[i].start)
  }

  predicate Sorted(xs: seq<int>) {
    forall i, j | 0 <= i < j < |xs| :: xs[i] <= xs[j]
  }

  /** x put into its place in the sorted ys. */
  function Insert(x: int, ys: seq<int>): (r: seq<int>)
    requires Sorted(ys)
    ensures Sorted(r) && multiset(r) == multiset(ys) + multiset{x}
    ensures r[0] == x || (|ys| > 0 && r[0] == ys[0])
  {
    if |ys| == 0 || x <= ys[0] then [x] + ys
    else
      assert ys == [ys[0]] + ys[1..];
      var rest := Insert(x, ys[1..]);
      SortedCons(ys[0], rest);
      [ys[0]] + rest
  }

  lemma SortedCons(a: int, xs: seq<int>)
    requires Sorted(xs) && (|xs| > 0 ==> a <= xs[0])
    ensures Sorted([a] + xs)
  {
  }

  /** Python's sorted on integers: an ordered permutation. */
  function Sort(xs: seq<int>): (r: seq<int>)
    ensures Sorted(r) && multiset(r) == multiset(xs)
  {
    if |xs| == 0 then []
    else
      assert xs == xs[..|xs| - 1] + [xs[|xs| - 1]];
      Insert(xs[|xs| - 1], Sort(xs[..|xs| - 1]))
  }

  /** The start times of tutor t's slots, earliest first. */
  function TutorStarts(s: Sched, t: string): (ss: seq<int>)
    ensures Sorted(ss) && |ss| == CountSlotsOfTutor(s, t)
  {
    var r := Sort(Starts(OfTutor(s.slots, t)));
    assert |r| == |multiset(r)|;
    r
  }

  /** Every sorted start is the start of one of t's slots. */
  lemma TutorStartsFrom(s: Sched, t: string)
    ensures forall i | 0 <= i < |TutorStarts(s, t)| ::
              exists k | 0 <= k < |s.slots| :: s.slots[k].tutor == t && s.slots[k].start == TutorStarts(s, t)[i]
  {
    var mine := OfTutor(s.slots, t);
    var ss := TutorStarts(s, t);
    OfTutorFrom(s.slots, t);
    forall i | 0 <= i < |ss|
      ensures exists k | 0 <= k < |s.slots| :: s.slots[k].tutor == t && s.slots[k].start == ss[i]
    {
      assert ss[i] in multiset(Starts(mine));
      var j :| 0 <= j < |mine| && Starts(mine)[j] == ss[i];
      assert mine[j] in s.slots && mine[j].tutor == t && mine[j].start == ss[i];
      var k :| 0 <= k < |s.slots| && s.slots[k] == mine[j];
      assert s.slots[k].tutor == t && s.slots[k].start == ss[i];
    }
  }

  // ---------------------------------------------------------------------
  // Test length and holes
  // ---------------------------------------------------------------------

  /** get_test_length_for_tutor: 0 for a tutor without slots, otherwise the
      distance from the earliest to the latest start in slots, plus one. */
  function GetTestLengthForTutor(s: Sched, t: string): (n: int)
    requires s.slotLen > 0
    ensures n == 0 <==> CountSlotsOfTutor(s, t) == 0
    ensures n >= 0
  {
    var ss := TutorStarts(s, t);
    if |ss| == 0 then 0 else (ss[|ss| - 1] - ss[0]) / s.slotLen + 1
  }

  /** The test length spans the tutor's earliest and latest start: every
      slot of the tutor starts between the first and the last sorted start
      (both of which are starts of the tutor's slots, TutorStartsFrom), and
      the length is their distance in slots plus one. */
  lemma TestLengthSpan(s: Sched, t: string)
    requires s.slotLen > 0 && CountSlotsOfTutor(s, t) > 0
    ensures var ss := TutorStarts(s, t);
            && GetTestLengthForTutor(s, t) == (ss[|ss| - 1] - ss[0]) / s.slotLen + 1
            && forall k | 0 <= k < |s.slots| && s.slots[k].tutor == t ::
                 ss[0] <= s.slots[k].start <= ss[|ss| - 1]
  {
    var ss := TutorStarts(s, t);
    forall k | 0 <= k < |s.slots| && s.slots[k].tutor == t
      ensures ss[0] <= s.slots[k].start <= ss[|ss| - 1]
    {
      StartInTutorStarts(s, t, k);
    }
  }

  lemma StartInTutorStarts(s: Sched, t: string, k: nat)
    requires k < |s.slots| && s.slots[k].tutor == t
    ensures s.slots[k].start in TutorStarts(s, t)
  {
    var mine := OfTutor(s.slots, t);
    OfTutorHas(s.slots, t, k);
    var j :| 0 <= j < |mine| && mine[j] == s.slots[k];
    assert Starts(mine)[j] == s.slots[k].start;
    assert s.slots[k].start in multiset(Starts(mine));
  }

  lemma {:induction false} OfTutorHas(xs: seq<Slot>, t: string, k: nat)
    requires k < |xs| && xs[k].tutor == t
    ensures xs[k] in OfTutor(xs, t)
    decreases |xs|
  {
    var ys := xs[..|xs| - 1];
    OfTutorAppend(ys, xs[|xs| - 1], t);
    assert xs == ys + [xs[|xs| - 1]];
    if k < |ys| {
      assert ys[k] == xs[k];
      OfTutorHas(ys, t, k);
    }
  }

  /** The holes between two neighbouring sorted starts: none for equal
      starts, otherwise the whole slots between them. */
  function Gap(a: int, b: int, d: nat): int
    requires d > 0
  {
    if a == b then 0 else (b - a) / d - 1
  }

  function HolesIn(ss: seq<int>, d: nat): int
    requires d > 0
  {
    if |ss| < 2 then 0 else HolesIn(ss[..|ss| - 1], d) + Gap(ss[|ss| - 2], ss[|ss| - 1], d)
  }

  /** count_tutor_holes for one tutor. */
  function TutorHoles(s: Sched, t: string): int
    requires s.slotLen > 0
  {
    HolesIn(TutorStarts(s, t), s.slotLen)
  }

  function HolesOver(s: Sched, ts: seq<string>): int
    requires s.slotLen > 0
  {
    if |ts| == 0 then 0 else HolesOver(s, ts[..|ts| - 1]) + TutorHoles(s, ts[|ts| - 1])
  }

  /** count_tutor_holes: the holes of every tutor in the tutor list. */
  function Holes(s: Sched): int
    requires s.slotLen > 0
  {
    HolesOver(s, s.tutors)
  }

  /** Neighbouring distinct starts one slot length apart leave no hole. */
  lemma {:induction false} ContiguousNoHoles(ss: seq<int>, d: nat)
    requires d > 0
    requires forall i | 0 <= i < |ss| - 1 :: ss[i + 1] == ss[i] || ss[i + 1] == ss[i] + d
    ensures HolesIn(ss, d) == 0
    decreases |ss|
  {
    if |ss| >= 2 {
      var ys := ss[..|ss| - 1];
      assert forall i | 0 <= i < |ys| :: ys[i] == ss[i];
      ContiguousNoHoles(ys, d);
      DivOfBlock(1, d, 0);
    }
  }

  /** All of xs lie on the grid of slot starts base + k * d. */
  ghost predicate OnGrid(xs: seq<int>, base: int, d: nat)
    requires d > 0
  {
    forall i | 0 <= i < |xs| :: (xs[i] - base) % d == 0
  }

  lemma ModDiff(a: int, b: int, base: int, d: nat)
    requires d > 0 && (a - base) % d == 0 && (b - base) % d == 0
    ensures (b - a) % d == 0
  {
    var qa, qb := (a - base) / d, (b - base) / d;
    assert b - a == (qb - qa) * d;
    MulMod(qb - qa, d);
  }

  lemma DivAdd(x: int, y: int, d: nat)
    requires d > 0 && x % d == 0 && y % d == 0
    ensures (x + y) / d == x / d + y / d
  {
    var qx, qy := x / d, y / d;
    assert x + y == (qx + qy) * d;
    DivOfBlock(qx + qy, d, 0);
  }

  lemma GapNonNegative(a: int, b: int, d: nat)
    requires d > 0 && a <= b && (b - a) % d == 0
    ensures Gap(a, b, d) >= 0
  {
    if a < b {
      var q := (b - a) / d;
      assert b - a == q * d;
      if q <= 0 {
        MulMonotone(q, 0, d);
      }
    }
  }

  /** Sorted starts on the grid have no negative hole count. */
  lemma {:induction false} HolesNonNegative(ss: seq<int>, base: int, d: nat)
    requires d > 0 && Sorted(ss) && OnGrid(ss, base, d)
    ensures HolesIn(ss, d) >= 0
    decreases |ss|
  {
    if |ss| >= 2 {
      var ys := ss[..|ss| - 1];
      assert forall i | 0 <= i < |ys| :: ys[i] == ss[i];
      HolesNonNegative(ys, base, d);
      ModDiff(ss[|ss| - 2], ss[|ss| - 1], base, d);
      GapNonNegative(ss[|ss| - 2], ss[|ss| - 1], d);
    }
  }

  /** Number of different start times among the sorted starts ss. */
  function DistinctStarts(ss: seq<int>): nat
  {
    if |ss| < 2 then |ss|
    else DistinctStarts(ss[..|ss| - 1]) + (if ss[|ss| - 2] == ss[|ss| - 1] then 0 else 1)
  }

  /** On the grid, the span of sorted starts in slots is split exactly into
      the distinct starts and the holes between them. */
  lemma {:induction false} SpanIsStartsPlusHoles(ss: seq<int>, base: int, d: nat)
    requires d > 0 && |ss| > 0 && Sorted(ss) && OnGrid(ss, base, d)
    ensures (ss[|ss| - 1] - ss[0]) / d + 1 == DistinctStarts(ss) + HolesIn(ss, d)
    decreases |ss|
  {
    if |ss| >= 2 {
      var ys := ss[..|ss| - 1];
      var f, a, b := ss[0], ss[|ss| - 2], ss[|ss| - 1];
      assert forall i | 0 <= i < |ys| :: ys[i] == ss[i];
      SpanIsStartsPlusHoles(ys, base, d);
      ModDiff(f, a, base, d);
      ModDiff(a, b, base, d);
      DivAdd(a - f, b - a, d);
    } else {
      DivOfBlock(0, d, 0);
    }
  }

  /** On an aligned timetable a tutor's test length is the number of
      different start times it supervises plus its holes. */
  lemma TestLengthIsStartsPlusHoles(s: Sched, base: int, t: string)
    requires s.slotLen > 0 && StartsAligned(s, base) && CountSlotsOfTutor(s, t) > 0
    ensures GetTestLengthForTutor(s, t) == DistinctStarts(TutorStarts(s, t)) + TutorHoles(s, t)
  {
    TutorStartsOnGrid(s, base, t);
    SpanIsStartsPlusHoles(TutorStarts(s, t), base, s.slotLen);
  }

  lemma TutorStartsOnGrid(s: Sched, base: int, t: string)
    requires s.slotLen > 0 && StartsAligned(s, base)
    ensures OnGrid(TutorStarts(s, t), base, s.slotLen)
  {
    TutorStartsFrom(s, t);
  }

  lemma {:induction false} HolesOverNonNegative(s: Sched, base: int, ts: seq<string>)
    requires s.slotLen > 0 && StartsAligned(s, base)
    ensures HolesOver(s, ts) >= 0
    decreases |ts|
  {
    if |ts| > 0 {
      HolesOverNonNegative(s, base, ts[..|ts| - 1]);
      TutorStartsOnGrid(s, base, ts[|ts| - 1]);
      HolesNonNegative(TutorStarts(s, ts[|ts| - 1]), base, s.slotLen);
    }
  }

  /** On a timetable whose starts are all on the slot grid the holes are
      never negative. */
  lemma HolesNonNegativeOnGrid(s: Sched, base: int)
    requires s.slotLen > 0 && StartsAligned(s, base)
    ensures Holes(s) >= 0
  {
    HolesOverNonNegative(s, base, s.tutors);
  }

  // ---------------------------------------------------------------------
  // Tutor changes
  // ---------------------------------------------------------------------

  /** Cells c and c + 1 of row r are both occupied, by different tutors. */
  predicate Change(s: Sched, r: nat, c: nat)
    requires WellFormed(s) && r < |s.grid| && c + 1 < Cols(s)
  {
    s.grid[r][c].Holds? && s.grid[r][c + 1].Holds? && SlotIn(s, r, c).tutor != SlotIn(s, r, c + 1).tutor
  }

  /** The changes of row r among the neighbouring pairs (c, c + 1), c < n. */
  function RowChanges(s: Sched, r: nat, n: nat): (k: nat)
    requires WellFormed(s) && r < |s.grid| && n < Cols(s)
    ensures k <= n
  {
    if n == 0 then 0 else RowChanges(s, r, n - 1) + (if Change(s, r, n - 1) then 1 else 0)
  }

  /** The changes of the first m rows. */
  function ChangesOver(s: Sched, m: nat): nat
    requires WellFormed(s) && m <= |s.grid|
  {
    if m == 0 then 0 else ChangesOver(s, m - 1) + RowChanges(s, m - 1, Cols(s) - 1)
  }

  /** count_tutor_changes: over all rooms, the neighbouring occupied cells
      whose tutors differ. */
  function TutorChanges(s: Sched): nat
    requires WellFormed(s)
  {
    ChangesOver(s, |s.grid|)
  }

  /** Each room is supervised by one tutor only. */
  ghost predicate OneTutorPerRoom(s: Sched)
    requires WellFormed(s)
  {
    forall r, c1, c2 | 0 <= r < |s.grid| && 0 <= c1 < Cols(s) && 0 <= c2 < Cols(s) ::
      s.grid[r][c1].Holds? && s.grid[r][c2].Holds? ==> SlotIn(s, r, c1).tutor == SlotIn(s, r, c2).tutor
  }

  lemma {:induction false} NoRowChanges(s: Sched, r: nat, n: nat)
    requires WellFormed(s) && OneTutorPerRoom(s) && r < |s.grid| && n < Cols(s)
    ensures RowChanges(s, r, n) == 0
    decreases n
  {
    if n > 0 {
      NoRowChanges(s, r, n - 1);
    }
  }

  lemma {:induction false} NoChangesOver(s: Sched, m: nat)
    requires WellFormed(s) && OneTutorPerRoom(s) && m <= |s.grid|
    ensures ChangesOver(s, m) == 0
    decreases m
  {
    if m > 0 {
      NoChangesOver(s, m - 1);
      NoRowChanges(s, m - 1, Cols(s) - 1);
    }
  }

  /** A single tutor per room gives no tutor changes. */
  lemma NoChanges(s: Sched)
    requires WellFormed(s) && OneTutorPerRoom(s)
    ensures TutorChanges(s) == 0
  {
    NoChangesOver(s, |s.grid|);
  }

  /** On a row that is one block of n columns starting at column r, the
      first c columns hold this many slots. */
  lemma {:induction false} RowSlotsInBlock(s: Sched, r: nat, n: nat, c: nat)
    requires WellFormed(s) && r < |s.grid| && RowBlock(s, r, n) && c <= Cols(s)
    ensures |RowSlots(s, r, c)| == if c <= r then 0 else if c <= r + n then c - r else n
    decreases c
  {
    if c > 0 {
      RowSlotsInBlock(s, r, n, c - 1);
    }
  }

  lemma SwitchesAppend(xs: seq<Slot>, x: Slot)
    ensures Switches(xs + [x]) == Switches(xs) + (if |xs| > 0 && xs[|xs| - 1].tutor != x.tutor then 1 else 0)
  {
    assert (xs + [x])[..|xs|] == xs;
  }

  /** On a row that is one block of columns, the tutor changes of the row
      are the switches between neighbouring slots of the row. */
  lemma {:induction false} RowChangesAreSwitches(s: Sched, r: nat, n: nat, c: nat)
    requires WellFormed(s) && r < |s.grid| && RowBlock(s, r, n) && c + 1 <= Cols(s)
    ensures RowChanges(s, r, c) == Switches(RowSlots(s, r, c + 1))
    decreases c
  {
    if c > 0 {
      RowChangesAreSwitches(s, r, n, c - 1);
      var xs := RowSlots(s, r, c);
      if s.grid[r][c].Holds? {
        assert RowSlots(s, r, c + 1) == xs + [SlotIn(s, r, c)];
        SwitchesAppend(xs, SlotIn(s, r, c));
        if s.grid[r][c - 1].Holds? {
          assert xs == RowSlots(s, r, c - 1) + [SlotIn(s, r, c - 1)];
        } else {
          RowSlotsInBlock(s, r, n, c);
        }
      } else {
        assert RowSlots(s, r, c + 1) == xs;
      }
    }
  }

  lemma {:induction false} SwitchesBelowLength(xs: seq<Slot>)
    requires |xs| > 0
    ensures Switches(xs) <= |xs| - 1
    decreases |xs|
  {
    if |xs| > 1 {
      SwitchesBelowLength(xs[..|xs| - 1]);
    }
  }

  /** With every room one non-empty block of columns, the changes of the
      first m rooms are at most their slots less one per room. */
  lemma {:induction false} ChangesOverBound(s: Sched, counts: seq<nat>, m: nat)
    requires WellFormed(s) && |counts| == |s.grid| && m <= |s.grid|
    requires forall r | 0 <= r < |s.grid| :: counts[r] > 0 && RowBlock(s, r, counts[r])
    ensures ChangesOver(s, m) + m <= Offset(counts, m)
    decreases m
  {
    if m > 0 {
      var r := m - 1;
      ChangesOverBound(s, counts, r);
      RowChangesAreSwitches(s, r, counts[r], Cols(s) - 1);
      RowSlotsInBlock(s, r, counts[r], Cols(s));
      SwitchesBelowLength(RowSlots(s, r, Cols(s)));
    }
  }

  /** Change, read off the matrix and the slot list of a timetable. */
  lemma MatrixChange(tt: Timetable, r: nat, c: nat)
    requires WellFormed(tt.View()) && r < tt.matrix.Length0 && c + 1 < tt.matrix.Length1
    ensures Change(tt.View(), r, c) <==>
              && tt.matrix[r, c].Holds? && tt.matrix[r, c + 1].Holds?
              && tt.slots[tt.matrix[r, c].index].tutor != tt.slots[tt.matrix[r, c + 1].index].tutor
  {
  }

  /** count_tutor_changes: both cells of each neighbouring pair occupied and
      their tutors different. */
  method CountTutorChanges(tt: Timetable) returns (changes: nat)
    requires WellFormed(tt.View())
    ensures changes == TutorChanges(tt.View())
  {
    ghost var s := tt.View();
    assert Cols(s) == tt.matrix.Length1;
    var rows := tt.matrix.Length0;
    changes := 0;
    var r := 0;
    while r < rows
      invariant 0 <= r <= rows && changes == ChangesOver(s, r)
    {
      var n := CountRowChanges(tt, r);
      changes := changes + n;
      r := r + 1;
    }
  }

  /** The inner loop of count_tutor_changes, over row r. */
  method CountRowChanges(tt: Timetable, r: nat) returns (changes: nat)
    requires WellFormed(tt.View()) && r < tt.matrix.Length0
    ensures changes == RowChanges(tt.View(), r, tt.matrix.Length1 - 1)
  {
    ghost var s := tt.View();
    var cols := tt.matrix.Length1;
    changes := 0;
    var c := 0;
    while c < cols - 1
      invariant 0 <= c <= cols - 1 && changes == RowChanges(s, r, c)
    {
      MatrixChange(tt, r, c);
      if tt.matrix[r, c] == Empty || tt.matrix[r, c + 1] == Empty {
        c := c + 1;
        continue;
      }
      if tt.slots[tt.matrix[r, c].index].tutor != tt.slots[tt.matrix[r, c + 1].index].tutor {
        changes := changes + 1;
      }
      c := c + 1;
    }
  }

  /** count_tutor_holes: the holes of every tutor in the tutor list. */
  method CountTutorHoles(tt: Timetable) returns (holes: int)
    requires tt.slotLen > 0
    ensures holes == Holes(tt.View())
  {
    ghost var s := tt.View();
    holes := 0;
    var j := 0;
    while j < |tt.tutors|
      invariant 0 <= j <= |tt.tutors| && holes == HolesOver(s, tt.tutors[..j])
    {
      var t := tt.tutors[j];
      var ss := Sort(Starts(OfTutor(tt.slots, t)));
      assert ss == TutorStarts(s, t);
      var h := HolesOfStarts(ss, tt.slotLen);
      holes := holes + h;
      assert tt.tutors[..j + 1][..j] == tt.tutors[..j];
      j := j + 1;
    }
    assert tt.tutors[..j] == tt.tutors;
  }

  /** The inner loop of count_tutor_holes over one tutor's sorted starts:
      neighbours with equal starts are skipped, the others add the whole
      slots between them. */
  method HolesOfStarts(ss: seq<int>, d: nat) returns (holes: int)
    requires d > 0
    ensures holes == HolesIn(ss, d)
  {
    holes := 0;
    var i := 0;
    while i < |ss| - 1
      invariant 0 <= i && (|ss| > 0 ==> i <= |ss| - 1)
      invariant holes == if |ss| == 0 then 0 else HolesIn(ss[..i + 1], d)
    {
      assert ss[..i + 2][..i + 1] == ss[..i + 1];
      if ss[i] == ss[i + 1] {
        i := i + 1;
        continue;
      }
      holes := holes + (ss[i + 1] - ss[i]) / d - 1;
      i := i + 1;
    }
    if |ss| > 0 {
      assert ss[..i + 1] == ss;
    }
  }

  // ---------------------------------------------------------------------
  // Measures of a constructed timetable
  // ---------------------------------------------------------------------

  /** A valid timetable keeps the constructor's layout: every room one
      non-empty block of columns, as long as its slot count. */
  lemma ValidRowBlocks(tt: Timetable) returns (counts: seq<nat>)
    requires tt.Valid()
    ensures WellFormed(tt.View()) && |counts| == |tt.View().grid| && Total(counts) == |tt.slots|
    ensures forall r | 0 <= r < |tt.View().grid| :: counts[r] > 0 && RowBlock(tt.View(), r, counts[r])
  {
    counts := SlotCounts(VariantOf(tt.test).value, |tt.rooms|, tt.numGroups);
    var v := VariantOf(tt.test).value;
    var init := InitialSched(tt.base, v, tt.rooms, tt.tutors, tt.numGroups);
    InitialRowBlocks(tt.base, v, tt.rooms, tt.tutors, tt.numGroups);
    InitialWellFormed(tt.base, v, tt.rooms, tt.tutors, tt.numGroups);
    SameLayoutFacts(tt.View(), init, tt.base);
  }

  /** In a valid timetable the export writes, for each room, one record more
      than the room has tutor changes. */
  lemma ExportRecordsMatchChanges(tt: Timetable)
    requires tt.Valid()
    ensures WellFormed(tt.View())
    ensures forall r | 0 <= r < |tt.rooms| ::
              && |RowSlots(tt.View(), r, Cols(tt.View()))| > 0
              && |RoomRuns(tt.rooms[r], RowSlots(tt.View(), r, Cols(tt.View())), tt.slotLen)|
                   == RowChanges(tt.View(), r, Cols(tt.View()) - 1) + 1
  {
    var s := tt.View();
    var counts := ValidRowBlocks(tt);
    RowsRecords(s, counts);
  }

  lemma RowsRecords(s: Sched, counts: seq<nat>)
    requires WellFormed(s) && |counts| == |s.grid|
    requires forall r | 0 <= r < |s.grid| :: counts[r] > 0 && RowBlock(s, r, counts[r])
    ensures forall r | 0 <= r < |s.rooms| ::
              && |RowSlots(s, r, Cols(s))| > 0
              && |RoomRuns(s.rooms[r], RowSlots(s, r, Cols(s)), s.slotLen)| == RowChanges(s, r, Cols(s) - 1) + 1
  {
    forall r | 0 <= r < |s.rooms|
      ensures |RowSlots(s, r, Cols(s))| > 0
      ensures |RoomRuns(s.rooms[r], RowSlots(s, r, Cols(s)), s.slotLen)| == RowChanges(s, r, Cols(s) - 1) + 1
    {
      RowRecords(s, s.rooms[r], r, counts[r], s.slotLen);
    }
  }

  /** A row whose slots form one non-empty block exports one record more
      than it has tutor changes. */
  lemma RowRecords(s: Sched, room: string, r: nat, n: nat, slotLen: nat)
    requires WellFormed(s) && r < |s.grid| && n > 0 && RowBlock(s, r, n)
    ensures |RowSlots(s, r, Cols(s))| > 0
    ensures |RoomRuns(room, RowSlots(s, r, Cols(s)), slotLen)| == RowChanges(s, r, Cols(s) - 1) + 1
  {
    RowSlotsInBlock(s, r, n, Cols(s));
    RowChangesAreSwitches(s, r, n, Cols(s) - 1);
    RoomRunsShape(room, RowSlots(s, r, Cols(s)), slotLen);
  }

  /** In a valid timetable there are at most as many tutor changes as slots
      less rooms. */
  lemma ChangesBounded(tt: Timetable)
    requires tt.Valid()
    ensures WellFormed(tt.View()) && TutorChanges(tt.View()) <= |tt.slots| - |tt.rooms|
  {
    var counts := ValidRowBlocks(tt);
    ChangesOverBound(tt.View(), counts, |tt.rooms|);
  }

  /** In a valid timetable the holes are never negative, and each tutor's
      test length is its distinct start times plus its holes. */
  lemma ValidHoles(tt: Timetable, t: string)
    requires tt.Valid()
    ensures tt.slotLen > 0 && Holes(tt.View()) >= 0
    ensures CountSlotsOfTutor(tt.View(), t) > 0 ==>
              GetTestLengthForTutor(tt.View(), t) == DistinctStarts(TutorStarts(tt.View(), t)) + TutorHoles(tt.View(), t)
  {
    tt.ValidFacts();
    HolesNonNegativeOnGrid(tt.View(), tt.base);
    if CountSlotsOfTutor(tt.View(), t) > 0 {
      TestLengthIsStartsPlusHoles(tt.View(), tt.base, t);
    }
  }

  // ---------------------------------------------------------------------
  // Pauses (placeholders)
  // ---------------------------------------------------------------------

  /** pause_slots_of_tutor: the starts of the tutor's slots are gathered and
      sorted, but no pause is derived from them yet; the result is empty. */
  function PauseSlotsOfTutor(s: Sched, t: string): seq<Slot>
  {
    var starts := Sort(Starts(OfTutor(s.slots, t)));
    []
  }

  /** pause_offset_to_testcenter_of_tutor, a placeholder that is always 0. */
  function PauseOffsetToTestcenter(s: Sched, t: string): int
  {
    0
  }
}
