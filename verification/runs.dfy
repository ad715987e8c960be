/**
 * The export of a timetable (print_timetable in timetable.py): per room,
 * one record (room, tutor, from, to) for every maximal run of consecutive
 * slots with the same tutor. Times stay whole minutes; the file and the
 * HH:MM formatting are not part of this model.
 */
module Runs {
  import opened Wrappers
  import opened Schedule

  datatype Run = Run(room: string, tutor: string, from: int, to: int)

  /** The state of the export loop of a row after some slots: the records
      written so far, the first slot of the open run, and the latest slot. */
  datatype Progress = Progress(done: seq<Run>, open: Slot, last: Slot)

  /** The export loop over the slots xs of one room; None before the first
      slot. A slot whose tutor differs from the open run's closes that run at
      its own start and opens the next one. */
  function Scan(room: string, xs: seq<Slot>): Option<Progress>
  {
    if |xs| == 0 then None
    else
      var x := xs[|xs| - 1];
      match Scan(room, xs[..|xs| - 1])
      case None => Some(Progress([], x, x))
      case Some(p) =>
        if x.tutor != p.open.tutor
        then Some(Progress(p.done + [Run(room, p.open.tutor, p.open.start, x.start)], x, x))
        else Some(Progress(p.done, p.open, x))
  }

  /** The records of one room: those the loop wrote, and the final one that
      closes the open run one slot length after the room's last slot. */
  function RoomRuns(room: string, xs: seq<Slot>, slotLen: nat): seq<Run>
    requires |xs| > 0
  {
    ScanSome(room, xs);
    var p := Scan(room, xs).value;
    p.done + [Run(room, p.open.tutor, p.open.start, p.last.start + slotLen)]
  }

  lemma ScanSome(room: string, xs: seq<Slot>)
    ensures Scan(room, xs).Some? <==> |xs| > 0
  {
  }

  /** One step of the export loop. */
  lemma ScanAppend(room: string, xs: seq<Slot>, x: Slot)
    ensures Scan(room, xs + [x]) == match Scan(room, xs)
              case None => Some(Progress([], x, x))
              case Some(p) =>
                if x.tutor != p.open.tutor
                then Some(Progress(p.done + [Run(room, p.open.tutor, p.open.start, x.start)], x, x))
                else Some(Progress(p.done, p.open, x))
  {
    assert (xs + [x])[..|xs|] == xs;
  }

  /** Number of neighbouring slots in xs with different tutors. */
  function Switches(xs: seq<Slot>): nat
  {
    if |xs| <= 1 then 0
    else Switches(xs[..|xs| - 1]) + (if xs[|xs| - 2].tutor != xs[|xs| - 1].tutor then 1 else 0)
  }

  /** What the loop keeps true: the records chain (each ends where the next
      begins), neighbours have different tutors, the open run follows the
      last record with another tutor, and one record was written per tutor
      switch. */
  ghost predicate Chained(room: string, xs: seq<Slot>, p: Progress)
    requires |xs| > 0
  {
    && p.last == xs[|xs| - 1] && p.last.tutor == p.open.tutor
    && |p.done| == Switches(xs)
    && (|p.done| == 0 ==> p.open == xs[0])
    && (|p.done| > 0 ==> p.done[0].from == xs[0].start)
    && (|p.done| > 0 ==> p.done[|p.done| - 1].to == p.open.start
                         && p.done[|p.done| - 1].tutor != p.open.tutor)
    && (forall i | 0 <= i < |p.done| :: p.done[i].room == room)
    && (forall i | 0 <= i < |p.done| - 1 ::
          p.done[i].to == p.done[i + 1].from && p.done[i].tutor != p.done[i + 1].tutor)
  }

  lemma {:induction false} ScanChained(room: string, xs: seq<Slot>)
    requires |xs| > 0
    ensures Scan(room, xs).Some? && Chained(room, xs, Scan(room, xs).value)
    decreases |xs|
  {
    var ys, x := xs[..|xs| - 1], xs[|xs| - 1];
    if |ys| > 0 {
      ScanChained(room, ys);
      var p := Scan(room, ys).value;
      assert xs == ys + [x];
      if x.tutor != p.open.tutor {
        ChainedSwitch(room, ys, x, p);
      } else {
        ChainedStay(room, ys, x, p);
      }
    }
  }

  /** A slot with another tutor closes the open run. */
  lemma ChainedSwitch(room: string, ys: seq<Slot>, x: Slot, p: Progress)
    requires |ys| > 0 && Chained(room, ys, p) && x.tutor != p.open.tutor
    ensures Chained(room, ys + [x], Progress(p.done + [Run(room, p.open.tutor, p.open.start, x.start)], x, x))
  {
    var xs := ys + [x];
    assert xs[..|xs| - 1] == ys;
    assert xs[0] == ys[0];
  }

  /** A slot with the open run's tutor extends that run. */
  lemma ChainedStay(room: string, ys: seq<Slot>, x: Slot, p: Progress)
    requires |ys| > 0 && Chained(room, ys, p) && x.tutor == p.open.tutor
    ensures Chained(room, ys + [x], Progress(p.done, p.open, x))
  {
    var xs := ys + [x];
    assert xs[..|xs| - 1] == ys;
    assert xs[0] == ys[0];
  }

  /** The indices in xs where a run of one tutor begins: the first slot, and
      every slot whose tutor differs from the slot before it. */
  function Starts(xs: seq<Slot>): (p: seq<nat>)
    ensures forall i | 0 <= i < |p| :: p[i] < |xs|
  {
    if |xs| == 0 then []
    else
      Starts(xs[..|xs| - 1])
        + (if |xs| == 1 || xs[|xs| - 2].tutor != xs[|xs| - 1].tutor then [|xs| - 1] else [])
  }

  /** Where run i of the runs beginning at p ends: where run i + 1 begins,
      or after the n slots for the last run. */
  function RunLimit(p: seq<nat>, i: nat, n: nat): nat
    requires i < |p|
  {
    if i + 1 < |p| then p[i + 1] else n
  }

  /** p splits xs into maximal runs of one tutor: it starts at 0, rises, each
      of its indices but the first changes tutor, and every slot from p[i]
      up to the next start carries the tutor of slot p[i]. */
  ghost predicate SplitsIntoRuns(xs: seq<Slot>, p: seq<nat>)
  {
    StartsRise(xs, p) && RunsConstant(xs, p)
  }

  ghost predicate StartsRise(xs: seq<Slot>, p: seq<nat>)
  {
    && |p| > 0 && p[0] == 0
    && (forall i | 0 <= i < |p| :: p[i] < |xs|)
    && (forall i | 0 <= i < |p| - 1 :: p[i] < p[i + 1])
    && (forall i | 0 < i < |p| :: 0 < p[i] < |xs| && xs[p[i] - 1].tutor != xs[p[i]].tutor)
  }

  ghost predicate RunsConstant(xs: seq<Slot>, p: seq<nat>)
  {
    forall i, j | 0 <= i < |p| && p[i] <= j < RunLimit(p, i, |xs|) && j < |xs| ::
      xs[j].tutor == xs[p[i]].tutor
  }

  lemma {:induction false} StartsSplit(xs: seq<Slot>)
    requires |xs| > 0
    ensures SplitsIntoRuns(xs, Starts(xs))
    decreases |xs|
  {
    var n := |xs|;
    if n == 1 {
      assert Starts(xs) == [0];
    } else {
      var ys, x := xs[..n - 1], xs[n - 1];
      assert xs == ys + [x];
      StartsSplit(ys);
      StartsAppend(ys, x);
      if ys[n - 2].tutor != x.tutor {
        SplitSwitch(ys, x, Starts(ys));
        assert Starts(xs) == Starts(ys) + [n - 1];
      } else {
        SplitStay(ys, x, Starts(ys));
        assert Starts(xs) == Starts(ys);
      }
    }
  }

  /** A slot with another tutor begins a new run. */
  lemma SplitSwitch(ys: seq<Slot>, x: Slot, q: seq<nat>)
    requires |ys| > 0 && SplitsIntoRuns(ys, q) && ys[|ys| - 1].tutor != x.tutor
    ensures SplitsIntoRuns(ys + [x], q + [|ys|])
  {
    var xs, p, n := ys + [x], q + [|ys|], |ys| + 1;
    SwitchRises(ys, x, q);
    forall i, j | 0 <= i < |p| && p[i] <= j < RunLimit(p, i, n) && j < n
      ensures xs[j].tutor == xs[p[i]].tutor
    {
      if i < |q| {
        assert RunLimit(p, i, n) == RunLimit(q, i, n - 1);
        assert xs[j] == ys[j] && xs[p[i]] == ys[q[i]];
      }
    }
  }

  lemma SwitchRises(ys: seq<Slot>, x: Slot, q: seq<nat>)
    requires |ys| > 0 && StartsRise(ys, q) && ys[|ys| - 1].tutor != x.tutor
    ensures StartsRise(ys + [x], q + [|ys|])
  {
    var xs, p := ys + [x], q + [|ys|];
    forall i | 0 < i < |p|
      ensures 0 < p[i] < |xs| && xs[p[i] - 1].tutor != xs[p[i]].tutor
    {
      if i < |q| {
        assert xs[p[i] - 1] == ys[q[i] - 1] && xs[p[i]] == ys[q[i]];
      }
    }
  }

  /** A slot with the tutor of the slot before it extends the last run. */
  lemma SplitStay(ys: seq<Slot>, x: Slot, q: seq<nat>)
    requires |ys| > 0 && SplitsIntoRuns(ys, q) && ys[|ys| - 1].tutor == x.tutor
    ensures SplitsIntoRuns(ys + [x], q)
  {
    var xs, n, last := ys + [x], |ys| + 1, |q| - 1;
    assert StartsRise(xs, q) by {
      forall i | 0 < i < |q|
        ensures 0 < q[i] < |xs| && xs[q[i] - 1].tutor != xs[q[i]].tutor
      {
        assert xs[q[i] - 1] == ys[q[i] - 1] && xs[q[i]] == ys[q[i]];
      }
    }
    assert ys[n - 2].tutor == ys[q[last]].tutor by {
      assert q[last] <= n - 2 < RunLimit(q, last, n - 1);
    }
    forall i, j | 0 <= i < |q| && q[i] <= j < RunLimit(q, i, n) && j < n
      ensures xs[j].tutor == xs[q[i]].tutor
    {
      assert xs[q[i]] == ys[q[i]];
      if j < n - 1 {
        assert xs[j] == ys[j];
        if i < last {
          assert RunLimit(q, i, n) == RunLimit(q, i, n - 1);
        }
      }
    }
  }

  /** The loop's records and open run are the runs that begin at starts. */
  ghost predicate RunsAt(room: string, xs: seq<Slot>, starts: seq<nat>, p: Progress)
  {
    && |starts| == |p.done| + 1
    && (forall i | 0 <= i < |starts| :: starts[i] < |xs|)
    && p.open == xs[starts[|starts| - 1]]
    && |xs| > 0 && p.last == xs[|xs| - 1]
    && (forall i | 0 <= i < |p.done| ::
          p.done[i] == Run(room, xs[starts[i]].tutor, xs[starts[i]].start, xs[starts[i + 1]].start))
  }

  lemma {:induction false} ScanStarts(room: string, xs: seq<Slot>)
    requires |xs| > 0
    ensures Scan(room, xs).Some? && RunsAt(room, xs, Starts(xs), Scan(room, xs).value)
    decreases |xs|
  {
    var n := |xs|;
    ScanSome(room, xs);
    if n == 1 {
      assert Starts(xs) == [0];
    } else {
      var ys, x := xs[..n - 1], xs[n - 1];
      assert xs == ys + [x];
      ScanStarts(room, ys);
      ScanAppend(room, ys, x);
      StartsAppend(ys, x);
      RunsAtStep(room, ys, x, Starts(ys), Scan(room, ys).value);
    }
  }

  lemma StartsAppend(ys: seq<Slot>, x: Slot)
    requires |ys| > 0
    ensures Starts(ys + [x])
              == Starts(ys) + (if ys[|ys| - 1].tutor != x.tutor then [|ys|] else [])
  {
    assert (ys + [x])[..|ys|] == ys;
  }

  /** One step of the export loop keeps the records on the runs. */
  lemma RunsAtStep(room: string, ys: seq<Slot>, x: Slot, q: seq<nat>, p: Progress)
    requires RunsAt(room, ys, q, p) && p.last.tutor == p.open.tutor
    ensures var xs := ys + [x];
            if x.tutor != p.open.tutor
            then RunsAt(room, xs, q + [|ys|], Progress(p.done + [Run(room, p.open.tutor, p.open.start, x.start)], x, x))
            else RunsAt(room, xs, q, Progress(p.done, p.open, x))
  {
    var xs := ys + [x];
    assert forall j | 0 <= j < |ys| :: xs[j] == ys[j];
  }

  /** The records of a room are its maximal runs of one tutor, in order:
      record i carries the tutor and start of the slot where run i begins
      and ends where run i + 1 begins, or one slot length after the room's
      last slot. Hence there is one record more than there are tutor
      switches, each record ends where the next begins, and neighbouring
      records have different tutors. */
  lemma RoomRunsChain(room: string, xs: seq<Slot>, slotLen: nat)
    requires |xs| > 0
    ensures var runs := RoomRuns(room, xs, slotLen);
            var starts := Starts(xs);
            && SplitsIntoRuns(xs, starts)
            && |runs| == |starts|
            && (forall i | 0 <= i < |runs| ::
                  runs[i] == Run(room, xs[starts[i]].tutor, xs[starts[i]].start,
                                 if i + 1 < |runs| then xs[starts[i + 1]].start
                                 else xs[|xs| - 1].start + slotLen))
            && |runs| == Switches(xs) + 1
            && runs[0].from == xs[0].start
            && runs[|runs| - 1].to == xs[|xs| - 1].start + slotLen
            && runs[|runs| - 1].tutor == xs[|xs| - 1].tutor
            && (forall i | 0 <= i < |runs| :: runs[i].room == room)
            && (forall i | 0 <= i < |runs| - 1 ::
                  runs[i].to == runs[i + 1].from && runs[i].tutor != runs[i + 1].tutor)
  {
    RoomRunsShape(room, xs, slotLen);
    RunsFromStarts(room, xs, slotLen);
    StartsSplit(xs);
  }

  /** The shape of a room's records, from the loop invariant. */
  lemma RoomRunsShape(room: string, xs: seq<Slot>, slotLen: nat)
    requires |xs| > 0
    ensures var runs := RoomRuns(room, xs, slotLen);
            && |runs| == Switches(xs) + 1
            && runs[0].from == xs[0].start
            && runs[|runs| - 1].to == xs[|xs| - 1].start + slotLen
            && runs[|runs| - 1].tutor == xs[|xs| - 1].tutor
            && (forall i | 0 <= i < |runs| :: runs[i].room == room)
            && (forall i | 0 <= i < |runs| - 1 ::
                  runs[i].to == runs[i + 1].from && runs[i].tutor != runs[i + 1].tutor)
  {
    ScanChained(room, xs);
  }

  /** Record i of a room is run i: the tutor and start of the slot where it
      begins, up to the start of the next run or one slot length after the
      room's last slot. */
  lemma RunsFromStarts(room: string, xs: seq<Slot>, slotLen: nat)
    requires |xs| > 0
    ensures var runs := RoomRuns(room, xs, slotLen);
            var starts := Starts(xs);
            && |runs| == |starts|
            && (forall i | 0 <= i < |runs| ::
                  runs[i] == Run(room, xs[starts[i]].tutor, xs[starts[i]].start,
                                 if i + 1 < |runs| then xs[starts[i + 1]].start
                                 else xs[|xs| - 1].start + slotLen))
  {
    ScanStarts(room, xs);
  }

  /** A room with a single tutor is exported as one record spanning all of
      its slots. */
  lemma {:induction false} SingleTutorRun(room: string, xs: seq<Slot>, slotLen: nat)
    requires |xs| > 0 && forall i | 0 <= i < |xs| :: xs[i].tutor == xs[0].tutor
    ensures RoomRuns(room, xs, slotLen)
              == [Run(room, xs[0].tutor, xs[0].start, xs[|xs| - 1].start + slotLen)]
  {
    NoSwitches(xs);
    ScanChained(room, xs);
  }

  lemma {:induction false} NoSwitches(xs: seq<Slot>)
    requires forall i | 0 <= i < |xs| :: xs[i].tutor == xs[0].tutor
    ensures Switches(xs) == 0
    decreases |xs|
  {
    if |xs| > 1 {
      NoSwitches(xs[..|xs| - 1]);
    }
  }
}
