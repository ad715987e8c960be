/**
 * The driver of generate.py around the search: the fixed room lists and
 * start shift of each test, the tutor count check, and the evaluation of a
 * genome (apply it, then score the timetable).
 */
module Generate {
  import opened Wrappers
  import opened Schedule
  import opened Timetable
  import opened Evaluation

  /** The lab rooms of each test; in test 2 the first one is the
      preparation room. */
  function ConfigRooms(test: int): seq<string> {
    if test == 1 then ["R1", "R2", "R3", "R4"] else ["R4", "R1", "R2", "R3"]
  }

  /** The configuration step: pick the rooms, shift the start past the
      seminar slot in test 1, refuse fewer tutors than rooms, and build the
      timetable with the copy of the constructor that takes the lab start as
      given. The result is the timetable timetable.py builds from the
      unshifted start. */
  method Configure(start: int, test: int, tutors: seq<string>, numGroups: nat)
    returns (r: Result<Timetable, Error>)
    requires test == 1 || test == 2
    requires Fits(VariantOf(test).value, 4, numGroups)
    ensures r.Failure? <==> |tutors| < 4
    ensures r.Failure? ==> r.error == TooFewTutors(|tutors|, 4)
    ensures r.Success? ==> fresh(r.value) && r.value.Valid()
    ensures r.Success? ==> r.value.rooms == ConfigRooms(test) && r.value.tutors == tutors
    ensures r.Success? ==>
              r.value.View() == InitialSched(BaseStart(start, test), VariantOf(test).value, ConfigRooms(test), tutors, numGroups)
  {
    var rooms: seq<string>;
    var labStart: int;
    if test == 1 {
      rooms := ["R1", "R2", "R3", "R4"];
      labStart := start + SlotLenTest1;
    } else {
      rooms := ["R4", "R1", "R2", "R3"];
      labStart := start;
    }
    if |tutors| < |rooms| {
      return Failure(TooFewTutors(|tutors|, |rooms|));
    }
    var t := new Timetable.FromLabStart(labStart, test, rooms, tutors, numGroups);
    return Success(t);
  }

  /** The timetable after a genome: the same layout with the tutors the
      genome names. */
  function Applied(s: Sched, genome: seq<int>): (a: Sched)
    requires |genome| == |s.slots| && GenomeFits(genome, |s.tutors|)
    ensures SameLayout(a, s)
    ensures forall k | 0 <= k < |a.slots| :: a.slots[k].tutor == s.tutors[genome[k]]
  {
    s.(slots := Retutor(s.slots, s.tutors, genome))
  }

  /** The evaluation of a genome depends on the genome alone: two
      timetables with the same layout become the same timetable. */
  lemma AppliedIgnoresOldTutors(a: Sched, b: Sched, genome: seq<int>)
    requires SameLayout(a, b) && |genome| == |a.slots| && GenomeFits(genome, |a.tutors|)
    ensures Applied(a, genome) == Applied(b, genome)
  {
    RetutorForgets(a.slots, b.slots, a.tutors, genome);
  }

  /** eval_func: apply the genome to the timetable (a genome of the wrong
      length stops the evaluation with that error), then score it. */
  method EvalFunc(tt: Timetable, genome: seq<int>) returns (r: Result<real, Error>)
    requires tt.Valid() && MaximaNonZero(tt.View())
    requires |genome| == |tt.slots| ==> GenomeFits(genome, |tt.tutors|)
    modifies tt
    ensures tt.Valid()
    ensures r.Failure? <==> |genome| != |old(tt.slots)|
    ensures r.Failure? ==> r.error == WrongGenomeLength(|genome|, |old(tt.slots)|) && tt.slots == old(tt.slots)
    ensures r.Success? ==> tt.View() == Applied(old(tt.View()), genome)
    ensures r.Success? ==> WellFormed(tt.View()) && MaximaNonZero(tt.View()) && r.value == Score(tt.View())
  {
    var o := tt.ApplyGenome(genome);
    if o.Fail? {
      return Failure(o.error);
    }
    tt.ValidFacts();
    var score := PiecewiseLinear(tt);
    return Success(score);
  }
}
