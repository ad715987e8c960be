# Exam timetable: data model, measures and score

This project models the core of a generator of exam timetables for a
course's computer tests. The generator lays out one test's slots over the
rooms. A genetic algorithm then tries tutor assignments, and each one is
scored.

The model has five parts:

- **Slots and the layout** (`schedule.dfy`, `timetable.dfy`).
  - A `Slot` has a start time in whole minutes, a group number and a tutor name.
  - The `Timetable` class builds slots in three steps:
    - it computes the number of slots per room;
    - it places the slots in a room × column matrix (an `array2` of cells that refer to slots by their position in the slot list);
    - it numbers the student groups.
  - The layout depends on the test:
    - Test 1 has 20-minute slots and a 100-minute test. Its rooms are all lab rooms. Column 0 starts one slot after the given start, because the seminar room is not part of the plan.
    - Test 2 has 30-minute slots and a 120-minute test. The first room is a preparation room that holds one slot per group.
  - Room r starts in column r. A column therefore stands for a start time.
  - The value `InitialSched` describes the layout. The constructor is proved to build exactly that value.
- **Genome application** (`timetable.dfy`). `ApplyGenome` overwrites the tutor of every slot from a sequence of tutor indices. It is the only operation that changes a timetable after construction.
- **Export runs** (`runs.dfy`). The export writes, for each room, one (room, tutor, from, to) record per run of consecutive slots with the same tutor.
- **Measures** (`measures.dfy`). These are integer statistics over the grid:
  - slot counts per tutor;
  - the slots that run concurrently with a start time;
  - overlaps (a tutor in two rooms at once);
  - a tutor's test length;
  - tutor changes within a room;
  - holes in a tutor's schedule;
  - the two pause placeholders, which are stubs that return no slots and 0.

  Each measure is a function. Where the source loops, a method implements the loop and is proved equal to the function.
- **Evaluation** (`evaluation.dfy`, `generate.dfy`).
  - Six weighted criteria, each a pair (reached, maximum), are summed into a score.
  - A configuration step picks the rooms and rejects too few tutors.
  - The evaluation of a genome applies the genome and then scores the timetable.

Where the documented behaviour and the code differ, the model follows the code. The balance criteria of the evaluation sum |c_i − c_j| over ordered pairs i ≠ j, so every unordered pair is counted twice. For counts (3, 5) the deduction is 4, not 2 (`Evaluation.DeductionOfThreeAndFive`).

A property of the code worth knowing is that the overlap measure finds a start time's column through row 0 of the matrix only. A double booking in a column whose row-0 cell is empty is therefore never counted (`Measures.EmptyHeadHidesColumn`). This happens, for example, in the last columns of test 1 when every room holds the same number of groups. The model keeps this behaviour.

## Model

| member | source | states |
|---|---|---|
| Schedule.NewSlot | timetable-generator/timetable.py:37-40 | a new slot has the given start, no group (−1) and the placeholder tutor |
| Schedule.SetTutor | timetable-generator/timetable.py:45-46 | only the tutor changes; start and group stay |
| Schedule.SetGroup | timetable-generator/timetable.py:51-52 | only the group changes; start and tutor stay |
| Schedule.VariantOf | timetable-generator/timetable.py:90-111 | a variant exists exactly for tests 1 and 2 (anything else is the error path); slots per group are 4 for test 1 and 3 for test 2; lab rooms begin at index test − 1 |
| Schedule.SlotCountAt | timetable-generator/timetable.py:116-131 | the per-room count list has one entry per room, and entry r is num_groups for the preparation room, (num_groups div labs + 1 if the lab index is below num_groups mod labs) × slots_per_group for a lab room |
| Schedule.EvenSpread | timetable-generator/timetable.py:121-131 | later lab rooms never hold more slots, no two lab rooms differ by more than one group's slots, and every lab room holds at least one group |
| Schedule.TotalSlots | timetable-generator/timetable.py:90-154 | the slot list is as long as the constructor's precomputed num_slots_total, which is 4 × num_groups for both tests |
| Schedule.InitialWellFormed | timetable-generator/timetable.py:134-154 | the built matrix has a row per room, the width max count + lab rooms, and cells that refer to existing slots |
| Schedule.GridAlignment | timetable-generator/timetable.py:134-154 | room r occupies exactly columns r .. r + n_r − 1, all inside the matrix, and the slot in column c starts at base + c × slotlen |
| Schedule.RoomOccupied | timetable-generator/timetable.py:127-152 | no room is empty: room r has a slot in column r |
| Schedule.EachSlotOnce | timetable-generator/timetable.py:140-152 | every slot of the list sits in exactly one matrix cell, in its room's row and its own column |
| Schedule.RoomMajorOrder | timetable-generator/timetable.py:140-152 | the slot list is in room order, and in start order within a room |
| Schedule.InitialAligned | timetable-generator/timetable.py:140-154 | every occupied cell starts at base + column × slotlen, every slot starts on that grid, and distinct cells hold distinct slots |
| Schedule.InitialRowBlocks | timetable-generator/timetable.py:140-154 | each row's occupied cells form one non-empty block of n_r columns beginning at column r |
| Schedule.PrepRoomGroups | timetable-generator/timetable.py:159-164 | test 2: the preparation room is occupied exactly in columns 0 .. num_groups − 1, and column c holds group c |
| Schedule.LabSlotGroup | timetable-generator/timetable.py:165-176 | the i-th slot of lab room r gets group (r − labFirst) + (i div slots_per_group) × labs, a number below num_groups whose remainder mod labs is the room and whose quotient is the block |
| Schedule.GroupOwnsBlock | timetable-generator/timetable.py:165-176 | every group g below num_groups owns block g div labs of lab room labFirst + g mod labs. All slots_per_group consecutive cells of that block are occupied by slots of group g |
| Schedule.GroupsAssigned | timetable-generator/timetable.py:156-176 | no slot keeps group −1: every group lies in 0 .. num_groups − 1 |
| Schedule.SameLayoutFacts | timetable-generator/generate.py:208-215 | alignment, slot identity and row blocks depend only on the layout, not on the tutors a genome puts in |
| Timetable.SlotCountsPerRoom | timetable-generator/timetable.py:116-131 | the loop fills the count of every room as SlotCounts says |
| Timetable.CreateSlots | timetable-generator/timetable.py:134-154 | a fresh matrix of the given size; cell (r, c) holds the slot at position offset(r) + c − r exactly on room r's columns; slot k is new and starts at base + column × slotlen |
| Timetable.AssignPrepGroups | timetable-generator/timetable.py:159-164 | the preparation-room slot in column c gets group c; every other slot is unchanged |
| Timetable.CounterStep | timetable-generator/timetable.py:168-176 | the running (group, cnt_slots) counters always agree with the closed form of the group of the next slot |
| Timetable.AssignRowGroups | timetable-generator/timetable.py:165-176 | the slots of lab room r get the closed-form group of their column; slots of other rooms are unchanged |
| Timetable.AssignGroups | timetable-generator/timetable.py:156-176 | after group numbering, every slot carries the group the layout assigns to its cell |
| Timetable.Build | timetable-generator/timetable.py:113-176 | the three phases together build exactly the layout InitialSched |
| Timetable.Timetable.constructor | timetable-generator/timetable.py:79-176 | stores test, rooms, tutors and group count; the state is the layout with column 0 at start + 20 minutes (test 1) or start (test 2) |
| Timetable.New | timetable-generator/timetable.py:90-111 | a test number other than 1 or 2 fails with the wrong-test error and builds nothing; otherwise it returns a fresh, valid timetable with that layout |
| Timetable.Timetable.FromLabStart | timetable-generator/generate.py:100-197 | the second copy of the constructor uses the start as given for column 0 |
| Timetable.Timetable.GetSlots | timetable-generator/timetable.py:183-184 | returns the slot list, whose length is num_slots_total |
| Timetable.Timetable.ValidFacts | timetable-generator/timetable.py:134-154 | a constructed timetable, re-tutored or not, keeps the column-equals-start alignment and one cell per slot |
| Timetable.Timetable.ValidPrintable | timetable-generator/timetable.py:195-213 | every row of a constructed timetable has a slot, so the export's per-room final record is always defined |
| Timetable.Timetable.PrintTimetable | timetable-generator/timetable.py:189-220 | one list of records per room, each the runs of that row's slots |
| Timetable.Timetable.PrintRooms | timetable-generator/timetable.py:195-218 | the loop over rows collects the runs of every room |
| Timetable.Timetable.PrintRoom | timetable-generator/timetable.py:196-218 | the loop over a row's columns with the last slot of the current run yields exactly the room's runs |
| Runs.ScanSome | timetable-generator/timetable.py:196-203 | the loop has a current run exactly when it has seen a slot |
| Runs.ScanChained | timetable-generator/timetable.py:196-211 | after any prefix of a row, the records written so far chain and the current run starts at the last record's end |
| Runs.RoomRunsChain | timetable-generator/timetable.py:195-218 | Starts(xs) splits the row into maximal runs of one tutor. It begins at 0 and rises. Each start after the first changes tutor, and every slot up to the next start has the start's tutor. Record i is (room, tutor of run i's first slot, start of that slot, start of run i + 1's first slot, or the last start + slotlen for the final record). So there is one record more than tutor switches, records chain, and neighbours differ in tutor |
| Runs.SingleTutorRun | timetable-generator/timetable.py:195-218 | a room with one tutor is exported as one record from its first start to its last start + slotlen |
| Timetable.Timetable.ApplyGenome | timetable-generator/generate.py:208-215 | a genome of the wrong length fails with the length error and changes nothing; otherwise slot k gets tutor tutors[genome[k]]; the layout stays valid |
| Timetable.Retutor | timetable-generator/generate.py:214-215 | slot k gets tutor tutors[genome[k]], and its start and group stay |
| Timetable.IndexOf | timetable-generator/generate.py:214-215 | the first position of a tutor name, or −1 exactly when it is absent |
| Timetable.GenomeRoundTrip | timetable-generator/generate.py:214-215 | with distinct tutor names, the genome is read back off the applied tutors |
| Timetable.RetutorOverwrites | timetable-generator/generate.py:214-215 | applying g1 and then g2 equals applying g2 |
| Timetable.RetutorIdempotent | timetable-generator/generate.py:214-215 | applying a genome twice equals applying it once |
| Timetable.RetutorForgets | timetable-generator/generate.py:214-215 | the tutors the slots had before never matter |
| Measures.CountSlotsOfTutor | timetable-generator/measures.py:13-15 | the count of slots of a tutor is at most the number of slots |
| Measures.OfTutorCount | timetable-generator/measures.py:13-15 | the filtered list is as long as the number of slots carrying that tutor |
| Measures.CountsOverSlots | timetable-generator/measures.py:13-15 | with distinct tutor names the counts sum to at most the number of slots, and to exactly that number when every slot's tutor is in the list |
| Measures.FirstMatch | timetable-generator/measures.py:25-33 | the first row-0 column whose slot starts at t0, or none when no such column exists |
| Measures.ConcurrentShareStart | timetable-generator/measures.py:20-34 | every slot returned for t0 starts at t0 |
| Measures.EmptyHeadHidesColumn | timetable-generator/measures.py:20-34 | a column whose row-0 cell is empty is never found: the result for its start time is empty |
| Measures.OccupiedHeadFindsColumn | timetable-generator/measures.py:20-34 | for the start of a column with an occupied row-0 cell, the result is that column's occupied cells, top to bottom |
| Measures.GetConcurrentSlots | timetable-generator/measures.py:20-34 | the loop with continue and break returns exactly ConcurrentSlots |
| Measures.TutorOverlaps | timetable-generator/measures.py:39-49 | a tutor's overlaps never exceed their slot count |
| Measures.NoOverlaps | timetable-generator/measures.py:39-49 | a tutor with at most one slot per column has no overlaps |
| Measures.DoubleBookingCounted | timetable-generator/measures.py:39-49 | two slots of a tutor in one column whose row 0 is occupied add at least 2 |
| Measures.CountOverlapsOfTutor | timetable-generator/measures.py:39-49 | the loop computes exactly TutorOverlaps |
| Measures.CountPossibleOverlaps | timetable-generator/measures.py:54-55 | slot count × (rooms − 1). With at least one room this is never negative. It is 0 exactly when there are no slots or only one room, and at least the slot count with two rooms or more |
| Measures.OverlapsBounded | timetable-generator/measures.py:54-65 | with distinct tutors, all overlaps together are at most the slot count, and at most count_possible_overlaps when there are two rooms or more |
| Measures.CountOverlaps | timetable-generator/measures.py:61-65 | the loop computes the sum of the per-tutor overlaps over the tutor list |
| Measures.Sort | timetable-generator/measures.py:72-73 | the sorted starts are ordered and a permutation of the input |
| Measures.TutorStarts | timetable-generator/measures.py:72-73 | the sorted starts of a tutor: ordered, one per slot of the tutor |
| Measures.TutorStartsFrom | timetable-generator/measures.py:72-73 | every sorted start is the start of one of the tutor's slots |
| Measures.GetTestLengthForTutor | timetable-generator/measures.py:71-80 | the test length is 0 exactly when the tutor has no slots, and is never negative (so it is at least 1 otherwise) |
| Measures.TestLengthSpan | timetable-generator/measures.py:71-80 | the length is (latest − earliest start) / slotlen + 1, and every slot of the tutor starts between the two |
| Measures.ContiguousNoHoles | timetable-generator/measures.py:105-110 | sorted starts that advance by 0 or one slot length have no holes |
| Measures.HolesNonNegativeOnGrid | timetable-generator/measures.py:100-111 | on a timetable whose starts lie on the slot grid, the holes sum is non-negative |
| Measures.TestLengthIsStartsPlusHoles | timetable-generator/measures.py:71-111 | on the slot grid, a tutor's test length equals their number of distinct starts plus their holes |
| Measures.CountTutorHoles | timetable-generator/measures.py:100-111 | the loop over the tutors computes exactly Holes |
| Measures.HolesOfStarts | timetable-generator/measures.py:105-110 | the inner loop skips equal starts and adds gap / slotlen − 1 otherwise, as HolesIn says |
| Measures.ValidHoles | timetable-generator/measures.py:100-111 | on a constructed timetable, holes are non-negative and each tutor's test length is their distinct starts plus holes |
| Measures.NoChanges | timetable-generator/measures.py:85-95 | with one tutor per room there are no tutor changes |
| Measures.RowChangesAreSwitches | timetable-generator/measures.py:89-94 | within a row of one block, the changes counted over neighbouring cells equal the tutor switches along the row's slots |
| Measures.ExportRecordsMatchChanges | timetable-generator/measures.py:85-95 | on a constructed timetable, each room exports one record more than its tutor changes |
| Measures.ChangesBounded | timetable-generator/measures.py:85-95 | on a constructed timetable, changes are at most the number of slots minus the number of rooms |
| Measures.CountTutorChanges | timetable-generator/measures.py:85-95 | the nested loop with continue computes exactly TutorChanges |
| Runs.NoSwitches | timetable-generator/measures.py:93-94 | slots of one tutor have no switches |
| Evaluation.DeductBalance | timetable-generator/evaluation.py:30-38 | starting from maximum, the nested loop subtracts exactly the ordered-pair deduction |
| Evaluation.DeductionCountsPairsTwice | timetable-generator/evaluation.py:35-38 | the deduction is twice the sum over unordered pairs |
| Evaluation.DeductionZeroIffEqual | timetable-generator/evaluation.py:35-38 | the deduction is 0 exactly when all values are equal |
| Evaluation.DeductionOfThreeAndFive | timetable-generator/evaluation.py:35-38 | counts (3, 5) deduct 4 |
| Evaluation.SlotCountList | timetable-generator/evaluation.py:31-34 | tutor_cnt holds each tutor's slot count, in tutor order |
| Evaluation.SlotCountsOfTutors | timetable-generator/evaluation.py:31-34 | one slot count per tutor, in tutor order |
| Evaluation.TestLengthList | timetable-generator/evaluation.py:47-50 | tutor_cnt holds each tutor's test length, in tutor order |
| Evaluation.TestLengthsOfTutors | timetable-generator/evaluation.py:47-50 | one test length per tutor, in tutor order |
| Evaluation.DeductOverlaps | timetable-generator/evaluation.py:62-64 | maximum minus the overlaps of every tutor |
| Evaluation.DeductPauses | timetable-generator/evaluation.py:88-91 | the pause deductions leave reached at maximum |
| Evaluation.PauseOffsetsZero | timetable-generator/measures.py:126-128 | the pause offsets of any tutors sum to 0 |
| Evaluation.Term | timetable-generator/evaluation.py:40 | a criterion whose reached equals its maximum contributes its weight; a zero weight contributes 0 |
| Evaluation.TermAtMostWeight | timetable-generator/evaluation.py:40 | with a positive maximum and reached at most maximum, a term is at most its weight |
| Evaluation.Criteria | timetable-generator/evaluation.py:27-93 | six criteria with weights 5, 4, 10, 0.8, 0.5 and 0; maxima slots × tutors (twice), slots × (rooms − 1), slots − 2 × rooms and slots (twice); reached never above maximum (holes: when they are non-negative); the pause criterion always at its maximum |
| Evaluation.PerfectScore | timetable-generator/evaluation.py:27-96 | with no deduction at all the score is exactly 20.3 |
| Evaluation.ScoreAtMostPerfect | timetable-generator/evaluation.py:27-83 | with positive maxima and non-negative holes the score is at most 20.3 |
| Evaluation.ValidScoreAtMostPerfect | timetable-generator/evaluation.py:27-83 | on a constructed timetable with positive maxima the score is at most 20.3 |
| Evaluation.PiecewiseLinear | timetable-generator/evaluation.py:18-96 | the evaluation only reads the timetable and returns exactly the weighted sum Score |
| Generate.Configure | timetable-generator/generate.py:465-482 | fails exactly when there are fewer tutors than the 4 rooms; otherwise it builds from the test's rooms, with column 0 at start + 20 minutes (test 1) or start (test 2), the same grid as the constructor of timetable.py |
| Generate.Applied | timetable-generator/generate.py:208-215 | the timetable after a genome has the same layout, and slot k has tutor tutors[genome[k]] |
| Generate.AppliedIgnoresOldTutors | timetable-generator/generate.py:214-215 | two timetables of the same layout are equal after the same genome |
| Generate.EvalFunc | timetable-generator/generate.py:487-563 | a genome of the wrong length fails and leaves the timetable as it was; otherwise the timetable becomes the genome's and the result is its score |

## Left out

- The genetic algorithm (pyevolve genome, selection and evolution loop), command-line parsing and logging. They are a foreign library and search plumbing. The genome range [0, len(tutors) − 1] that the GA is configured with is a precondition of `ApplyGenome` and `EvalFunc`.
- The export's file writes and its `strftime` formatting. The export returns the (room, tutor, from, to) records with times in minutes.
- The fixed-width `__repr__` text renderings, which are presentation only.
- `evaluation.fuzzy`, a stub that returns 0.0.
- `Slot.is_concurrent`, which refers to undefined names and is never called. Concurrency is the same column, or the same start.
- The measure methods and the evaluation copied into generate.py. They are modelled once, from measures.py and evaluation.py, and `Generate.EvalFunc` uses those.
- `pause_slots_of_tutor` and `pause_offset_to_testcenter_of_tutor` are modelled as the stubs they are (`Measures.PauseSlotsOfTutor`, `Measures.PauseOffsetToTestcenter`). They have no property beyond their constant result.
- Evaluation.PiecewiseLinear: floating point. The score is an exact real, so float rounding of `weight * reached / maximum` is not modelled. Python 2 integer `/` on the non-negative minute counts is Dafny's `/`.
- Evaluation.PiecewiseLinear: zero maxima are excluded by a precondition (`MaximaNonZero`), because the source raises a division error there.
- Times are whole minutes on one day. The wrap of `timedelta.seconds` and the minute-of-day sort key are not modelled across midnight.
- Timetable.Timetable.constructor: degenerate configurations are excluded by preconditions (`Fits`: at least one lab room, and no fewer groups than lab rooms). The source divides by zero without lab rooms, and leaves an empty row with fewer groups, which the export cannot handle.
- Room names are assumed distinct. The source keys its per-room counts by name.
- Timetable.Timetable.PrintTimetable: the source fails on an empty row. For an empty row after the first, `s_last` is still `None` from the reset, so reading its tutor raises an attribute error. If row 0 is empty, `s` is unbound and the source raises there. Either way the rows before it have already been written to the file. Constructed timetables have no empty row (`ValidPrintable`), so the model requires a slot in every row.
- Generate.Configure: the test number is limited to 1 and 2 by the argument parser, so it is a precondition here. The group count must fit the 4 rooms (`Fits`).
- Timetable.Timetable.ApplyGenome: the model requires every gene to lie in [0, len(tutors) − 1], the range the GA draws from. Outside it the source behaves in two ways. A gene of len(tutors) or more raises an index error. A negative gene in [−len(tutors), −1] raises nothing: Python counts it from the end of the list and silently picks that tutor. Neither case is modelled.
