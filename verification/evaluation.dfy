/**
 * The piecewise-linear evaluation of evaluation.py: six criteria, each an
 * integer pair (reached, maximum) weighted by a fixed factor, summed into
 * the score. Scores are exact reals; reached and maximum stay integers.
 */
module Evaluation {
  import opened Schedule
  import opened Timetable
  import opened Measures

  // ---------------------------------------------------------------------
  // Balance deduction
  // ---------------------------------------------------------------------

  function Abs(x: int): nat {
    if x < 0 then -x else x
  }

  /** Row i of the double loop: the differences of c[i] to c[0 .. n-1],
      skipping i itself. */
  function RowDeviation(c: seq<int>, i: nat, n: nat): (d: nat)
    requires i < |c| && n <= |c|
  {
    if n == 0 then 0
    else RowDeviation(c, i, n - 1) + (if i != n - 1 then Abs(c[i] - c[n - 1]) else 0)
  }

  /** Rows 0 .. k-1 of the double loop, each over the columns 0 .. n-1. */
  function RowsDeviation(c: seq<int>, k: nat, n: nat): nat
    requires k <= |c| && n <= |c|
  {
    if k == 0 then 0 else RowsDeviation(c, k - 1, n) + RowDeviation(c, k - 1, n)
  }

  /** The deduction of the two balance criteria: the absolute differences
      over all ordered pairs i != j, so every unordered pair counts twice. */
  function Deduction(c: seq<int>): nat
  {
    RowsDeviation(c, |c|, |c|)
  }

  /** Differences over the unordered pairs j < i < k. */
  function PairsBelow(c: seq<int>, k: nat): nat
    requires k <= |c|
  {
    if k == 0 then 0 else PairsBelow(c, k - 1) + RowDeviation(c, k - 1, k - 1)
  }

  /** The differences of c[0 .. k-1] to c[m]. */
  function ColumnDeviation(c: seq<int>, k: nat, m: nat): nat
    requires k <= |c| && m < |c|
  {
    if k == 0 then 0 else ColumnDeviation(c, k - 1, m) + Abs(c[k - 1] - c[m])
  }

  lemma {:induction false} RowsGrow(c: seq<int>, k: nat, m: nat)
    requires k <= m < |c|
    ensures RowsDeviation(c, k, m + 1) == RowsDeviation(c, k, m) + ColumnDeviation(c, k, m)
    decreases k
  {
    if k > 0 {
      RowsGrow(c, k - 1, m);
    }
  }

  lemma {:induction false} ColumnIsRow(c: seq<int>, k: nat, m: nat)
    requires k <= m < |c|
    ensures ColumnDeviation(c, k, m) == RowDeviation(c, m, k)
    decreases k
  {
    if k > 0 {
      ColumnIsRow(c, k - 1, m);
      assert Abs(c[k - 1] - c[m]) == Abs(c[m] - c[k - 1]);
    }
  }

  lemma {:induction false} SquareIsTwicePairs(c: seq<int>, m: nat)
    requires m <= |c|
    ensures RowsDeviation(c, m, m) == 2 * PairsBelow(c, m)
    decreases m
  {
    if m > 0 {
      var k := m - 1;
      SquareIsTwicePairs(c, k);
      RowsGrow(c, k, k);
      ColumnIsRow(c, k, k);
      RowLastColumn(c, k);
    }
  }

  lemma RowLastColumn(c: seq<int>, k: nat)
    requires k < |c|
    ensures RowDeviation(c, k, k + 1) == RowDeviation(c, k, k)
  {
  }

  /** Each unordered pair of tutors enters the deduction twice. */
  lemma DeductionCountsPairsTwice(c: seq<int>)
    ensures Deduction(c) == 2 * PairsBelow(c, |c|)
  {
    SquareIsTwicePairs(c, |c|);
  }

  lemma {:induction false} RowAtLeast(c: seq<int>, i: nat, j: nat, n: nat)
    requires i < |c| && j < n <= |c| && i != j
    ensures RowDeviation(c, i, n) >= Abs(c[i] - c[j])
    decreases n
  {
    if j < n - 1 {
      RowAtLeast(c, i, j, n - 1);
    }
  }

  lemma {:induction false} RowsAtLeast(c: seq<int>, i: nat, k: nat, n: nat)
    requires i < k <= |c| && n <= |c|
    ensures RowsDeviation(c, k, n) >= RowDeviation(c, i, n)
    decreases k
  {
    if i < k - 1 {
      RowsAtLeast(c, i, k - 1, n);
    }
  }

  lemma {:induction false} RowZero(c: seq<int>, i: nat, n: nat)
    requires i < |c| && n <= |c| && forall j | 0 <= j < |c| :: c[j] == c[0]
    ensures RowDeviation(c, i, n) == 0
    decreases n
  {
    if n > 0 {
      RowZero(c, i, n - 1);
    }
  }

  lemma {:induction false} RowsZero(c: seq<int>, k: nat)
    requires k <= |c| && forall j | 0 <= j < |c| :: c[j] == c[0]
    ensures RowsDeviation(c, k, |c|) == 0
    decreases k
  {
    if k > 0 {
      RowsZero(c, k - 1);
      RowZero(c, k - 1, |c|);
    }
  }

  /** The deduction is 0 exactly when all tutors have the same value. */
  lemma DeductionZeroIffEqual(c: seq<int>)
    ensures Deduction(c) == 0 <==> forall i, j | 0 <= i < |c| && 0 <= j < |c| :: c[i] == c[j]
  {
    if forall i, j | 0 <= i < |c| && 0 <= j < |c| :: c[i] == c[j] {
      if |c| > 0 {
        RowsZero(c, |c|);
      }
    } else {
      var i, j :| 0 <= i < |c| && 0 <= j < |c| && c[i] != c[j];
      RowAtLeast(c, i, j, |c|);
      RowsAtLeast(c, i, |c|, |c|);
    }
  }

  /** Two tutors with 3 and 5 slots: the deduction is 4, each of the two
      ordered pairs adding 2. */
  lemma DeductionOfThreeAndFive()
    ensures Deduction([3, 5]) == 4
  {
    assert RowDeviation([3, 5], 0, 2) == 2;
    assert RowDeviation([3, 5], 1, 2) == 2;
  }

  /** The double loop of the two balance criteria: from the maximum, take
      off the difference of every ordered pair of different tutors. */
  method DeductBalance(c: seq<int>, maximum: int) returns (reached: int)
    ensures reached == maximum - Deduction(c)
  {
    reached := maximum;
    var i := 0;
    while i < |c|
      invariant 0 <= i <= |c| && reached == maximum - RowsDeviation(c, i, |c|)
    {
      var j := 0;
      while j < |c|
        invariant 0 <= j <= |c| && reached == maximum - RowsDeviation(c, i, |c|) - RowDeviation(c, i, j)
      {
        if i != j {
          reached := reached - Abs(c[i] - c[j]);
        }
        j := j + 1;
      }
      i := i + 1;
    }
  }

  // ---------------------------------------------------------------------
  // Criteria and score
  // ---------------------------------------------------------------------

  /** One criterion: its weight, the points reached and the maximum. */
  datatype Criterion = Criterion(weight: real, reached: int, maximum: int)

  /** A criterion's share of the score: weight * reached / maximum. */
  function Term(k: Criterion): (x: real)
    requires k.maximum != 0
    ensures k.reached == k.maximum ==> x == k.weight
    ensures k.weight == 0.0 ==> x == 0.0
  {
    k.weight * (k.reached as real) / (k.maximum as real)
  }

  /** Reached at most the maximum keeps the term at most the weight. */
  lemma TermAtMostWeight(k: Criterion)
    requires k.maximum > 0 && k.reached <= k.maximum && k.weight >= 0.0
    ensures Term(k) <= k.weight
  {
    var w, r, m := k.weight, k.reached as real, k.maximum as real;
    RealMulNonNeg(w, m - r);
    RealScaleBack(Term(k), w, m);
  }

  lemma RealMulNonNeg(a: real, b: real)
    requires a >= 0.0 && b >= 0.0
    ensures a * b >= 0.0
  {
  }

  /** x = w * r / m with w * r <= w * m and m > 0 gives x <= w. */
  lemma RealScaleBack(x: real, w: real, m: real)
    requires m > 0.0 && x * m <= w * m
    ensures x <= w
  {
  }

  /** The slot count of each tutor, in the order of the tutor list. */
  function SlotCountsOfTutors(s: Sched): (c: seq<int>)
    ensures |c| == |s.tutors|
    ensures forall i | 0 <= i < |s.tutors| :: c[i] == CountSlotsOfTutor(s, s.tutors[i])
  {
    seq(|s.tutors|, i requires 0 <= i < |s.tutors| => CountSlotsOfTutor(s, s.tutors[i]))
  }

  /** The test length of each tutor, in the order of the tutor list. */
  function TestLengthsOfTutors(s: Sched): (c: seq<int>)
    requires s.slotLen > 0
    ensures |c| == |s.tutors|
    ensures forall i | 0 <= i < |s.tutors| :: c[i] == GetTestLengthForTutor(s, s.tutors[i])
  {
    seq(|s.tutors|, i requires 0 <= i < |s.tutors| => GetTestLengthForTutor(s, s.tutors[i]))
  }

  /** The pause offsets summed over the first tutors ts. */
  function PauseOffsets(s: Sched, ts: seq<string>): int
  {
    if |ts| == 0 then 0 else PauseOffsets(s, ts[..|ts| - 1]) + PauseOffsetToTestcenter(s, ts[|ts| - 1])
  }

  function SlotsTimesTutors(s: Sched): int { |s.slots| * |s.tutors| }
  function SlotsTimesOtherRooms(s: Sched): int { |s.slots| * (|s.rooms| - 1) }
  function SlotsLessTwoPerRoom(s: Sched): int { |s.slots| - 2 * |s.rooms| }

  /** No maximum is zero: the evaluation divides by each of them. */
  predicate MaximaNonZero(s: Sched) {
    SlotsTimesTutors(s) != 0 && SlotsTimesOtherRooms(s) != 0 && SlotsLessTwoPerRoom(s) != 0 && |s.slots| != 0
  }

  predicate MaximaPositive(s: Sched) {
    SlotsTimesTutors(s) > 0 && SlotsTimesOtherRooms(s) > 0 && SlotsLessTwoPerRoom(s) > 0 && |s.slots| > 0
  }

  /** The six criteria of piecewise_linear, in its order: equal slot counts,
      equal test lengths, no overlaps, no tutor changes, no holes, pause. */
  function Criteria(s: Sched): (ks: seq<Criterion>)
    requires WellFormed(s)
    ensures |ks| == 6
    ensures ks[0].weight == 5.0 && ks[1].weight == 4.0 && ks[2].weight == 10.0
    ensures ks[3].weight == 0.8 && ks[4].weight == 0.5 && ks[5].weight == 0.0
    ensures ks[0].maximum == ks[1].maximum == |s.slots| * |s.tutors|
    ensures ks[2].maximum == CountPossibleOverlaps(s)
    ensures ks[3].maximum == |s.slots| - 2 * |s.rooms|
    ensures ks[4].maximum == ks[5].maximum == |s.slots|
    ensures ks[0].reached <= ks[0].maximum && ks[1].reached <= ks[1].maximum
    ensures ks[2].reached <= ks[2].maximum && ks[3].reached <= ks[3].maximum
    ensures Holes(s) >= 0 ==> ks[4].reached <= ks[4].maximum
    ensures ks[5].reached == ks[5].maximum
  {
    PauseOffsetsZero(s, s.tutors);
    [ Criterion(5.0, SlotsTimesTutors(s) - Deduction(SlotCountsOfTutors(s)), SlotsTimesTutors(s)),
      Criterion(4.0, SlotsTimesTutors(s) - Deduction(TestLengthsOfTutors(s)), SlotsTimesTutors(s)),
      Criterion(10.0, SlotsTimesOtherRooms(s) - Overlaps(s), SlotsTimesOtherRooms(s)),
      Criterion(0.8, SlotsLessTwoPerRoom(s) - TutorChanges(s), SlotsLessTwoPerRoom(s)),
      Criterion(0.5, |s.slots| - Holes(s), |s.slots|),
      Criterion(0.0, |s.slots| - PauseOffsets(s, s.tutors), |s.slots|) ]
  }

  lemma {:induction false} PauseOffsetsZero(s: Sched, ts: seq<string>)
    ensures PauseOffsets(s, ts) == 0
    decreases |ts|
  {
    if |ts| > 0 {
      PauseOffsetsZero(s, ts[..|ts| - 1]);
    }
  }

  /** piecewise_linear: the weighted sum of reached / maximum. */
  function Score(s: Sched): real
    requires WellFormed(s) && MaximaNonZero(s)
  {
    var ks := Criteria(s);
    Term(ks[0]) + Term(ks[1]) + Term(ks[2]) + Term(ks[3]) + Term(ks[4]) + Term(ks[5])
  }

  /** No deduction at all scores the sum of the weights, 20.3. */
  lemma PerfectScore(s: Sched)
    requires WellFormed(s) && MaximaNonZero(s)
    requires Deduction(SlotCountsOfTutors(s)) == 0 && Deduction(TestLengthsOfTutors(s)) == 0
    requires Overlaps(s) == 0 && TutorChanges(s) == 0 && Holes(s) == 0
    ensures Score(s) == 20.3
  {
  }

  /** With positive maxima and holes that are not negative, no term exceeds
      its weight, so no score exceeds 20.3. */
  lemma ScoreAtMostPerfect(s: Sched)
    requires WellFormed(s) && MaximaPositive(s) && Holes(s) >= 0
    ensures Score(s) <= 20.3
  {
    var ks := Criteria(s);
    TermAtMostWeight(ks[0]);
    TermAtMostWeight(ks[1]);
    TermAtMostWeight(ks[2]);
    TermAtMostWeight(ks[3]);
    TermAtMostWeight(ks[4]);
  }

  /** On a valid timetable with positive maxima the score is at most 20.3. */
  lemma ValidScoreAtMostPerfect(tt: Timetable)
    requires tt.Valid() && MaximaPositive(tt.View())
    ensures WellFormed(tt.View()) && Score(tt.View()) <= 20.3
  {
    tt.ValidFacts();
    ValidHoles(tt, "");
    ScoreAtMostPerfect(tt.View());
  }

  // ---------------------------------------------------------------------
  // The evaluation loop
  // ---------------------------------------------------------------------

  /** piecewise_linear: each criterion starts from its maximum, takes off
      its deductions and adds its term, weight * reached / maximum, to the
      score. The timetable is only read. */
  method PiecewiseLinear(tt: Timetable) returns (score: real)
    requires WellFormed(tt.View()) && MaximaNonZero(tt.View())
    ensures score == Score(tt.View())
  {
    score := 0.0;

    // equal number of slots for each tutor
    var weight := 5.0;
    var maximum := |tt.slots| * |tt.tutors|;
    assert maximum == SlotsTimesTutors(tt.View());
    var tutorCnt := SlotCountList(tt);
    var reached := DeductBalance(tutorCnt, maximum);
    var t0 := Criterion(weight, reached, maximum);
    score := score + Term(t0);

    // equal overall time at test for each tutor
    weight := 4.0;
    tutorCnt := TestLengthList(tt);
    reached := DeductBalance(tutorCnt, maximum);
    var t1 := Criterion(weight, reached, maximum);
    score := score + Term(t1);

    // non-overlapping slots
    weight := 10.0;
    maximum := |tt.slots| * (|tt.rooms| - 1);
    assert maximum == SlotsTimesOtherRooms(tt.View());
    reached := DeductOverlaps(tt, maximum);
    var t2 := Criterion(weight, reached, maximum);
    score := score + Term(t2);

    // no tutor changes
    weight := 0.8;
    maximum := |tt.slots| - |tt.rooms| * 2;
    assert maximum == SlotsLessTwoPerRoom(tt.View());
    var changes := CountTutorChanges(tt);
    reached := maximum - changes;
    var t3 := Criterion(weight, reached, maximum);
    score := score + Term(t3);

    // no holes for tutor
    weight := 0.5;
    maximum := |tt.slots|;
    var holes := CountTutorHoles(tt);
    reached := maximum - holes;
    var t4 := Criterion(weight, reached, maximum);
    score := score + Term(t4);

    // pause in the middle of the test
    weight := 0.0;
    maximum := |tt.slots|;
    reached := DeductPauses(tt, maximum);
    var t5 := Criterion(weight, reached, maximum);
    score := score + Term(t5);

    ghost var ks := Criteria(tt.View());
    assert ks[0] == t0 && ks[1] == t1 && ks[2] == t2;
    assert ks[3] == t3 && ks[4] == t4 && ks[5] == t5;
  }

  lemma TakeOneMore(xs: seq<int>, i: nat)
    requires i < |xs|
    ensures xs[..i + 1] == xs[..i] + [xs[i]]
  {
  }

  /** The list of slot counts, one per tutor. */
  method SlotCountList(tt: Timetable) returns (tutorCnt: seq<int>)
    ensures tutorCnt == SlotCountsOfTutors(tt.View())
  {
    var s := tt.View();
    ghost var all := SlotCountsOfTutors(s);
    tutorCnt := [];
    var i := 0;
    while i < |tt.tutors|
      invariant 0 <= i <= |tt.tutors| && tutorCnt == all[..i]
    {
      TakeOneMore(all, i);
      tutorCnt := tutorCnt + [CountSlotsOfTutor(s, tt.tutors[i])];
      i := i + 1;
    }
    assert all[..i] == all;
  }

  /** The list of test lengths, one per tutor. */
  method TestLengthList(tt: Timetable) returns (tutorCnt: seq<int>)
    requires tt.slotLen > 0
    ensures tutorCnt == TestLengthsOfTutors(tt.View())
  {
    var s := tt.View();
    ghost var all := TestLengthsOfTutors(s);
    tutorCnt := [];
    var i := 0;
    while i < |tt.tutors|
      invariant 0 <= i <= |tt.tutors| && tutorCnt == all[..i]
    {
      TakeOneMore(all, i);
      tutorCnt := tutorCnt + [GetTestLengthForTutor(s, tt.tutors[i])];
      i := i + 1;
    }
    assert all[..i] == all;
  }

  /** The overlap criterion's loop: each tutor's overlaps taken off. */
  method DeductOverlaps(tt: Timetable, maximum: int) returns (reached: int)
    requires WellFormed(tt.View())
    ensures reached == maximum - Overlaps(tt.View())
  {
    reached := maximum;
    var i := 0;
    while i < |tt.tutors|
      invariant 0 <= i <= |tt.tutors| && reached == maximum - OverlapsOver(tt.View(), tt.tutors[..i])
    {
      var n := CountOverlapsOfTutor(tt, tt.tutors[i]);
      assert tt.tutors[..i + 1][..i] == tt.tutors[..i];
      reached := reached - n;
      i := i + 1;
    }
    assert tt.tutors[..i] == tt.tutors;
  }

  /** The pause criterion's loop: each tutor's pause offset taken off. */
  method DeductPauses(tt: Timetable, maximum: int) returns (reached: int)
    ensures reached == maximum
  {
    var s := tt.View();
    reached := maximum;
    var i := 0;
    while i < |tt.tutors|
      invariant 0 <= i <= |tt.tutors| && reached == maximum - PauseOffsets(s, tt.tutors[..i])
    {
      assert tt.tutors[..i + 1][..i] == tt.tutors[..i];
      reached := reached - PauseOffsetToTestcenter(s, tt.tutors[i]);
      i := i + 1;
    }
    assert tt.tutors[..i] == tt.tutors;
    PauseOffsetsZero(s, tt.tutors);
  }
}
