# A verified model of tim's scheduling core

tim is a personal task scheduler. It fetches tasks ("events") from external
calendars and to-do services and places each one at a start minute inside a
window. This project models three parts of it in Dafny and proves
properties about them:

- **The availability calculator** (`find_availability`). It subtracts busy
  blocks from the window `[start, end)` and returns the free
  `(start, end)` pairs. The model keeps the exact iteration of the source:
  the inner loop walks a Python list that it changes while iterating, so
  removing a pair shifts the next one under the iterator, which then skips
  it. Appended pairs are still visited (`Availability.Sweep`).
- **The greedy scheduler** (`build_schedule` and its three scoring
  helpers):
  - *Viability* is `_viable_at`.
  - *Priority* is `_priority_at`: a base tier, plus an age bonus, times a
    deadline coefficient.
  - *Suitability* is `_suitability_at`: the mean of a leading 0, a
    day-part factor, a context-overlap factor and a consistency factor.
  - *The run itself*:
    - sort the open events by descending priority;
    - freeze the ongoing ones as busy blocks;
    - for each remaining event, scan every free minute and keep the first
      one with the highest suitability;
    - place the event there, or set it aside.
- **Two calendar-diff helpers** of the Google Calendar integrator.
  `_get` is a dotted-path lookup into decoded JSON. `_event_up_to_date`
  asks whether every field of a locally built event body already agrees
  with the remote event. Timestamps are compared by instant.

Modelling choices:

- **Time.** Times are whole seconds on one clock. A minute is 60 seconds
  and `timedelta.days` is floor division by 86400.
- **Durations.** A duration is a signed number of seconds, as the nullable
  integer column allows. A negative one gives a block that ends before it
  starts, and then the free pairs can overlap
  (`Availability.AvailabilityBackwardBlock`). No pair overlaps a block
  even then, so the placement lemmas hold for any durations. Only the
  disjointness of the free pairs (`Availability.AvailabilityAvoidsBlocks`)
  and the frozen blocks' direction (`Scheduler.OngoingBlocksWellFormed`)
  need blocks that run forwards.
- **Database rows.** Events are values. Django's `==` on model instances
  compares primary keys, so `events.remove(event)` removes the first
  element with the same `id` (`Scheduler.RemoveById`).
- **Mutation.** Assigning `event.scheduled` produces an updated copy. Each
  row occurs once in the list, so no aliasing is lost. The caller's block
  list, which `build_schedule` appends to, is returned as
  `Scheduler.Outcome.blocks`.
- **Exceptions.** An exception that escapes is a `Failure` carrying the
  exception's name. The CONSISTENCY branch of `_suitability_at` reads
  `.hours` of a `timedelta`, which has no such attribute, so it raises
  `AttributeError`. The model says so and proves when a run raises.
- **Imperative code:**
  - `find_availability`, the freezing loop and the placement loop of
    `build_schedule`, the minute scan and `_get` are loops in the source,
    so they are methods with loop invariants.
  - Each method is proved equal to a specification function
    (`FindAvailability` to `Availability`, `BuildSchedule` to `BuildPlan`,
    `Get` to `GetPath`). The lemmas are proved about those functions.
- **Pure code.** The scoring helpers and `_event_up_to_date` are
  functions.

## Model

| member | source | states |
|---|---|---|
| Availability.Overlaps | tim/scheduling/utils.py:17 | definition: the block overlaps the pair unless it starts at or after the pair's end or ends at or before its start |
| Availability.OverlapsShared | tim/scheduling/utils.py:17 | for a non-empty block and pair, the test holds exactly when some second lies in both |
| Availability.Sweep | tim/scheduling/utils.py:16-27 | definition: the inner loop from iterator index `i`; an overlapped pair is removed and its pieces appended, and the index moves on by one either way |
| Availability.SweepAll | tim/scheduling/utils.py:15-27 | definition: one sweep per block, in list order |
| Availability.Availability | tim/scheduling/utils.py:8-29 | definition: the sweeps of the blocks sorted by start, over the single pair `(start, end)` |
| Availability.FindAvailability | tim/scheduling/utils.py:8-29 | the loop computes the sweep of the sorted blocks over `[(start, end)]`; every returned pair lies in the window and is non-empty when the window is |
| Availability.Pieces | tim/scheduling/utils.py:19-27 | what replaces an overlapped pair never overlaps the block and lies inside the pair; the equal-or-covering case yields nothing |
| Availability.PiecesKeepFreeTime | tim/scheduling/utils.py:19-27 | a second of the pair outside the block stays in one of the replacement pieces |
| Availability.SweepUnchanged | tim/scheduling/utils.py:16-17 | a block that overlaps no remaining pair leaves the list as it is |
| Availability.SweepSkips | tim/scheduling/utils.py:16-17 | pairs the block does not overlap are passed over without change |
| Availability.SkipAfterRemove | tim/scheduling/utils.py:16-18 | on a list with two overlapped pairs, the removal makes the iterator skip the second one, which stays in the result although the block overlaps it |
| Availability.SweepSingle | tim/scheduling/utils.py:16-25 | when exactly one pair overlaps the block, that pair is cut out and its pieces are appended at the end |
| Availability.SweepMissesOverlap | tim/scheduling/utils.py:16-25 | for any block starting no earlier than every pair that does not end at the window end, cutting out the one pair it overlaps leaves at most one pair ending at the window end, the others ending by the block's start, and all clear of the blocks so far |
| Availability.SweepMissesStep | tim/scheduling/utils.py:16-25 | the same for one sweep of such a block, whether or not it overlaps a pair |
| Availability.SweepAllMisses | tim/scheduling/utils.py:11-27 | with blocks sorted by start, of any shape, the working list stays clear of every block handled so far |
| Availability.AvailabilityMissesBlocks | tim/scheduling/utils.py:8-29 | no returned pair overlaps any block, for every list of blocks, including ones that end before they start |
| Availability.SweepAllSorted | tim/scheduling/utils.py:11-25 | with blocks sorted by start, the working list stays pairwise disjoint, in the window, and clear of every block handled so far |
| Availability.AvailabilityWithinWindow | tim/scheduling/utils.py:13-25 | every returned pair lies inside `[start, end)`, and none is empty when the window is not |
| Availability.AvailabilityKeepsFreeTime | tim/scheduling/utils.py:13-29 | a second of the window in no block lies in some returned pair |
| Availability.AvailabilityAvoidsBlocks | tim/scheduling/utils.py:11-29 | for blocks with `start <= end`, the returned pairs are also pairwise disjoint; none overlaps any block |
| Availability.AvailabilityTiles | tim/scheduling/utils.py:11-29 | for any blocks, a second of the window lies in a returned pair if and only if no block covers it |
| Availability.AvailabilityNoBlocks | tim/scheduling/utils.py:13-15 | with no blocks the whole window is returned |
| Availability.AvailabilityOneBlock | tim/scheduling/utils.py:15-27 | one block: the result for each of the four overlap cases and for no overlap |
| Availability.AvailabilityBackwardBlock | tim/scheduling/utils.py:19-23 | a block that ends before it starts cuts the window into two pairs that overlap each other |
| Models.ParseFlag | tim/scheduling/__init__.py:1-25 | a name of the recognised-flag table reads back as the flag it names |
| Scoring.Days | tim/scheduling/scheduler.py:37 | whole days of a span, rounded down also for negative spans |
| Scoring.DaysMonotone | tim/scheduling/scheduler.py:37 | a longer span never has fewer days |
| Scoring.Viable | tim/scheduling/scheduler.py:11-18 | definition: not "nobox", inception unset or not after the minute, and duration unset or not longer than the time from the minute to the given end |
| Scoring.ViableBetween | tim/scheduling/scheduler.py:11-18 | the viable minutes form an interval |
| Scoring.ViableExtremes | tim/scheduling/scheduler.py:11-18 | "nobox" is never viable; an unconstrained event always is; a viable event with a duration fits before the window end |
| Scoring.BasePriority | tim/scheduling/scheduler.py:23-33 | the base lies in `[0, 4]`; it is 4 exactly with "p1" and 0 exactly with "minor" and no higher tier |
| Scoring.BasePriorityIsFirstTier | tim/scheduling/scheduler.py:23-33 | the base is the weight of the first tier present in the table p1, p2, p3, p4, minor, else 1 |
| Scoring.AgeBonus | tim/scheduling/scheduler.py:36-37 | the age bonus is at most 1, non-negative for a past inception, and exactly 1 from 28 days on |
| Scoring.AgeBonusMonotone | tim/scheduling/scheduler.py:36-37 | an older event never gets a smaller bonus |
| Scoring.DeadlineMultiplier | tim/scheduling/scheduler.py:41-42 | the coefficient is at least 1, and exactly 1 when the deadline lies 7 or more days in the past |
| Scoring.DeadlineMultiplierMonotone | tim/scheduling/scheduler.py:41-42 | the coefficient grows with the time left until the deadline |
| Scoring.DeadlineMultiplierPoints | tim/scheduling/scheduler.py:41-42 | the coefficient is 4 two weeks ahead, 2 at the deadline, and 1 a week after it |
| Scoring.AgedPriority | tim/scheduling/scheduler.py:23-37 | base plus age lies between the base (for a past inception) and the base plus one |
| Scoring.Priority | tim/scheduling/scheduler.py:21-46 | without inception or deadline the priority is the base; without a deadline it is at most base plus one |
| Scoring.PriorityAtLeastBase | tim/scheduling/scheduler.py:21-46 | for a past inception, the priority is never below the non-negative base |
| Scoring.WeighMonotone | tim/scheduling/scheduler.py:42 | scaling a non-negative priority by the coefficient is monotone in the time left |
| Scoring.LaterDeadlineNotLower | tim/scheduling/scheduler.py:39-42 | of two otherwise equal events, the one with the later deadline never has the lower priority |
| Scoring.DayPartsEmpty | tim/scheduling/scheduler.py:55-69 | there are day-part bounds exactly when one of morning, afternoon, evening or daytime is set |
| Scoring.DayPartFactor | tim/scheduling/scheduler.py:55-74 | definition: no factor without day-part flags; otherwise -10 before the earliest start or after the latest end, and +10 in between |
| Scoring.DayPartFactorIff | tim/scheduling/scheduler.py:69-74 | no factor without day parts; otherwise +10 exactly when the time of day is between the earliest start and the latest end, else -10 |
| Scoring.MorningAndEveningSpanAfternoon | tim/scheduling/scheduler.py:57-74 | bounds are merged by min and max, so morning plus evening accepts 14:00 where morning alone does not; 12:00 is inside the morning |
| Scoring.PlacedBefore | tim/scheduling/scheduler.py:77-82 | the filter keeps exactly the placed events that start before the minute |
| Scoring.PlacedBeforeSorted | tim/scheduling/scheduler.py:77-82 | filtering a list sorted by start keeps it sorted |
| Scoring.Prior | tim/scheduling/scheduler.py:77-84 | definition: the last of the placed events that start before the minute, once sorted by start |
| Scoring.PriorIsLatest | tim/scheduling/scheduler.py:77-84 | no prior exactly when nothing starts before the minute; otherwise the prior starts before it and no such event starts later |
| Scoring.ContextFactor | tim/scheduling/scheduler.py:85 | the shared-context count is at most the event's own context count |
| Scoring.Mean | tim/scheduling/scheduler.py:91 | definition: the exact mean of a non-empty list |
| Scoring.SuitabilityFails | tim/scheduling/scheduler.py:88-89 | definition: a CONSISTENCY schedule and an event with a previous start, the case in which `.hours` raises |
| Scoring.Factors | tim/scheduling/scheduler.py:52-89 | the factor list starts with the leading 0 and has at most three entries |
| Scoring.Suitability | tim/scheduling/scheduler.py:49-91 | it raises exactly for a CONSISTENCY schedule and an event with a previous start |
| Scoring.SuitabilityNeutral | tim/scheduling/scheduler.py:52-91 | with no day parts and nothing placed before the minute, the score is 0 |
| Scoring.SuitabilityContext | tim/scheduling/scheduler.py:83-91 | with no day parts, the score is the shared-context count of the latest earlier event, halved |
| Scoring.SuitabilityPrefersDayPart | tim/scheduling/scheduler.py:69-91 | with the same prior event, a minute inside the day parts scores strictly higher than one outside |
| Scheduler.Candidates | tim/scheduling/scheduler.py:100-103 | the query keeps exactly the incomplete events with no inception or one before the window end |
| Scheduler.Ordered | tim/scheduling/scheduler.py:99-106 | the ordered list is a permutation of the candidates |
| Scheduler.OrderedByPriority | tim/scheduling/scheduler.py:99-106 | priorities at the window end never increase along the ordered list |
| Scheduler.OrderedStable | tim/scheduling/scheduler.py:99-106 | events of equal priority keep their query order |
| Scheduler.ExpectedEnd | tim/scheduling/scheduler.py:109-111 | the expected end is not before the start exactly when the duration is not negative |
| Scheduler.Ongoing | tim/scheduling/scheduler.py:108-115 | definition: started at or before `now`, with the expected end plus the grace minutes still after `now` |
| Scheduler.OngoingBlock | tim/scheduling/scheduler.py:118 | the frozen block starts at the event's start, and runs forwards exactly when the duration is not negative |
| Scheduler.RemoveById | tim/scheduling/scheduler.py:117 | removal by primary key keeps only elements of the list, and drops exactly one when one has the key |
| Scheduler.RemoveByIdAt | tim/scheduling/scheduler.py:117 | with distinct keys, removal cuts out exactly that element |
| Scheduler.Freeze | tim/scheduling/scheduler.py:107-118 | every frozen event is ongoing at `now`; frozen and kept events all come from the list |
| Scheduler.FreezeOngoing | tim/scheduling/scheduler.py:107-118 | the loop keeps what the freeze keeps and appends one block per frozen event, in order |
| Scheduler.FreezeSplits | tim/scheduling/scheduler.py:107-118 | the kept and frozen events split the ordered list, each part in its order |
| Scheduler.FreezeSplitsRemoved | tim/scheduling/scheduler.py:107-118 | the same from a position whose event is removed |
| Scheduler.FreezeKeepsIdle | tim/scheduling/scheduler.py:107-118 | nothing is lost or duplicated, and every event that is not ongoing is kept |
| Scheduler.FreezeSkipsNext | tim/scheduling/scheduler.py:107-117 | of two adjacent ongoing events, the removal of the first makes the loop skip the second, which is not frozen |
| Scheduler.Steps | tim/scheduling/scheduler.py:129-137 | definition: the minutes from a start, one minute apart, before an end |
| Scheduler.StepsMembers | tim/scheduling/scheduler.py:129-137 | the scanned minutes of a pair are exactly the whole-minute steps from its start before its end |
| Scheduler.Minutes | tim/scheduling/scheduler.py:128-137 | definition: the steps of every free pair, pair after pair |
| Scheduler.MinutesInside | tim/scheduling/scheduler.py:128-137 | every scanned minute lies in a free pair |
| Scheduler.Better | tim/scheduling/scheduler.py:134-136 | the kept pick is the old one or the new minute, and its score never drops |
| Scheduler.Scan | tim/scheduling/scheduler.py:128-137 | definition: at each viable minute the suitability is computed, which may raise, and replaces the best only when strictly higher |
| Scheduler.ScanConcat | tim/scheduling/scheduler.py:128-137 | scanning two runs of minutes is scanning the first and continuing from its pick |
| Scheduler.ScanInterval | tim/scheduling/scheduler.py:129-137 | the inner loop over one free pair computes the scan of its minutes |
| Scheduler.ScanAvailability | tim/scheduling/scheduler.py:128-137 | the two loops compute the scan of all free minutes in order |
| Scheduler.ScanFromBest | tim/scheduling/scheduler.py:128-137 | starting from any pick, the scan keeps it or ends at the first viable minute of highest score, which beats it |
| Scheduler.ScanPicksFirstBest | tim/scheduling/scheduler.py:126-137 | without a CONSISTENCY failure the scan finds nothing exactly when no minute is viable, and otherwise the first viable minute of highest score |
| Scheduler.ScanRaises | tim/scheduling/scheduler.py:128-133 | when scoring raises, the scan raises `AttributeError` exactly when some minute is viable |
| Scheduler.ScanKeepsUnbeaten | tim/scheduling/scheduler.py:134-136 | the comparison is strict: a pick no minute beats is kept |
| Scheduler.PlacedBlock | tim/scheduling/scheduler.py:141-142 | a block is added exactly for an event with a duration |
| Scheduler.Record | tim/scheduling/scheduler.py:138-147 | every placed event keeps a start |
| Scheduler.Turn | tim/scheduling/scheduler.py:124-137 | definition: the scan of the popped event over the minutes of the availability of the current blocks |
| Scheduler.PlanFrom | tim/scheduling/scheduler.py:123-147 | definition: pop the front of the queue, run its turn, stop on a raise, otherwise record the outcome and go on |
| Scheduler.BuildPlan | tim/scheduling/scheduler.py:94-149 | definition: sort the candidates, freeze the ongoing ones with their blocks after the caller's, then run the loop from empty lists |
| Scheduler.PlaceNext | tim/scheduling/scheduler.py:124-147 | one loop body computes the availability, scans it and records the outcome |
| Scheduler.PlaceAll | tim/scheduling/scheduler.py:120-149 | the placement loop returns placed events followed by set-aside ones, as the plan says |
| Scheduler.BuildSchedule | tim/scheduling/scheduler.py:94-149 | the whole run sorts, freezes and places as the specification function says |
| Scheduler.TurnPlaces | tim/scheduling/scheduler.py:124-137 | a chosen minute lies in the window, is viable, is covered by no block, and is the first of highest score |
| Scheduler.TurnRaises | tim/scheduling/scheduler.py:128-137 | a turn raises only `AttributeError`, only for a failing suitability, and then only if some minute is viable |
| Scheduler.TurnFindsNothing | tim/scheduling/scheduler.py:138-147 | an event viable at no minute of the window finds no time |
| Scheduler.NeverViableInWindow | tim/scheduling/scheduler.py:12-17 | "nobox", a duration longer than the window or an inception at its end rule out every minute |
| Scheduler.GrowsStep | tim/scheduling/scheduler.py:138-147 | one recorded turn preserves the loop's bookkeeping invariant |
| Scheduler.PlanGrows | tim/scheduling/scheduler.py:120-149 | the queue is split in order between placed and set-aside events; set-aside ones have no start; the blocks grow by one per placed event with a duration |
| Scheduler.PlanPlacements | tim/scheduling/scheduler.py:123-143 | every newly placed event starts in the window, at a viable minute free of the initial blocks, whatever the durations |
| Scheduler.TurnPlacedWell | tim/scheduling/scheduler.py:124-142 | an event placed by one turn satisfies that placement property |
| Scheduler.PlanRaises | tim/scheduling/scheduler.py:123-133 | the loop raises only `AttributeError`, only for CONSISTENCY, and only when some queued event has a previous start |
| Scheduler.SetAside | tim/scheduling/scheduler.py:144-147 | an event viable nowhere goes to the unschedulable list with its start cleared |
| Scheduler.CandidatesDistinct | tim/scheduling/scheduler.py:100-103 | the query keeps primary keys distinct |
| Scheduler.SortByDistinct | tim/scheduling/scheduler.py:99-106 | sorting keeps primary keys distinct |
| Scheduler.BuildPlanShape | tim/scheduling/scheduler.py:94-149 | the output is the kept events split in order into placed and set-aside; the blocks are the caller's, then the frozen ones, then the placed ones |
| Scheduler.KeptByPriority | tim/scheduling/scheduler.py:99-118 | the queue left after freezing is still in descending priority at the window end |
| Scheduler.OngoingBlocksWellFormed | tim/scheduling/scheduler.py:118 | frozen blocks of events with non-negative durations never end before they start |
| Scheduler.BuildPlanPlacements | tim/scheduling/scheduler.py:94-149 | every placed event starts at a viable minute of the window that neither a caller's block nor a frozen block covers, whatever the durations |
| Scheduler.BuildPlanRaises | tim/scheduling/scheduler.py:94-149 | an EFFICIENCY schedule never raises; a CONSISTENCY one raises `AttributeError` only when a kept event has a previous start |
| Scheduler.GapBeforeBlock | tim/scheduling/scheduler.py:124-137 | the minutes scanned before a late busy block are the whole minutes of the gap |
| Scheduler.LongEventTurn | tim/scheduling/scheduler.py:124-143 | an hour-long event facing a block after 30 minutes gets the first minute of the gap |
| Scheduler.PlacedOverBusyBlock | tim/scheduling/scheduler.py:123-147 | that placement is recorded although its hour overlaps the busy block, because viability checks the window end rather than the free pair's end |
| Gcal.Same | tim/integrations/integrators/gcal.py:48 | definition: Python's `==` on decoded JSON, with `True == 1`, lists element by element and dicts key by key |
| Gcal.Field | tim/integrations/integrators/gcal.py:30-31 | a field is found exactly when some entry has the key |
| Gcal.SameRefl | tim/integrations/integrators/gcal.py:48 | Python equality on decoded JSON is reflexive |
| Gcal.Split | tim/integrations/integrators/gcal.py:21 | splitting yields at least one piece and no piece contains a dot |
| Gcal.JoinSplit | tim/integrations/integrators/gcal.py:21 | joining the pieces with dots gives the path back |
| Gcal.Occurs | tim/integrations/integrators/gcal.py:22 | definition: Python's `in` on strings, a test for a run of consecutive characters |
| Gcal.Step | tim/integrations/integrators/gcal.py:22-24 | a route moves on exactly when the value is a dict with that key; every failure is `TypeError` |
| Gcal.Lookup | tim/integrations/integrators/gcal.py:21-25 | definition: one step per route; a missing key ends the walk with `None`, a raise ends it with the raise |
| Gcal.GetPath | tim/integrations/integrators/gcal.py:18-25 | definition: `None` for a `None` object, otherwise the lookup of the split path |
| Gcal.Follow | tim/integrations/integrators/gcal.py:21-25 | definition of the reference reading: descend through dicts only, `None` at the first route that is not a key |
| Gcal.Get | tim/integrations/integrators/gcal.py:18-25 | the loop computes the path lookup; `None` yields `None` |
| Gcal.LookupFollows | tim/integrations/integrators/gcal.py:21-25 | when every route is a key of the dict reached, the lookup returns the value at the end |
| Gcal.LookupMissing | tim/integrations/integrators/gcal.py:22-23 | a route missing from the dict reached yields `None`, whatever follows |
| Gcal.LookupOutcome | tim/integrations/integrators/gcal.py:21-25 | any value returned other than `None` is the end of a dict-only walk; a raise is `TypeError` after reaching a non-dict |
| Gcal.Agree | tim/integrations/integrators/gcal.py:37-49 | definition: a field that parses as a timestamp agrees only with a value parsing to the same instant; any other field by Python equality |
| Gcal.UpToDateFrom | tim/integrations/integrators/gcal.py:28-50 | definition: the loop from the `i`-th key; `AttributeError` when the remote value is not a dict, recursion into dict fields, `False` at the first disagreement |
| Gcal.UpToDate | tim/integrations/integrators/gcal.py:28-50 | definition: the loop from the first key |
| Gcal.Covers | tim/integrations/integrators/gcal.py:28-50 | definition of the reference reading: every field from the `i`-th on agrees with the remote value, nested dicts recursively |
| Gcal.UpToDateCovers | tim/integrations/integrators/gcal.py:28-50 | the check answers True exactly when every field of the child, nested dicts included, agrees with the remote value under its key |
| Gcal.UpToDateEmpty | tim/integrations/integrators/gcal.py:29-31 | an empty child is up to date; a non-empty one against a non-dict raises `AttributeError` |
| Gcal.UpToDateIgnoresOtherKeys | tim/integrations/integrators/gcal.py:29-31 | two remote dicts that agree on the child's keys get the same answer |
| Gcal.UpToDateSkipsAgreeing | tim/integrations/integrators/gcal.py:28-50 | agreeing fields are passed over without an answer or a raise |
| Gcal.UpToDateMismatch | tim/integrations/integrators/gcal.py:44-49 | after agreeing fields, an unparsable non-dict value unequal to the remote one makes the answer False |
| Gcal.UpToDateSameInstant | tim/integrations/integrators/gcal.py:37-43 | two timestamps that parse to the same instant agree whatever their text |
| Gcal.CoversRefl | tim/integrations/integrators/gcal.py:28-50 | a dict with distinct keys covers itself |
| Gcal.UpToDateRefl | tim/integrations/integrators/gcal.py:28-50 | an event body is up to date with itself |

## Where the code and its documentation differ

The model follows the code in each of these cases.

- **The iterator skip in `find_availability` is harmless here.** A removal
  does skip the next pair, as `Availability.SkipAfterRemove` shows. But
  the blocks are sorted by start, so each block overlaps at most one pair
  of the working list, whatever its direction. The result therefore tiles
  the window exactly (`Availability.AvailabilityTiles`,
  `Availability.AvailabilityMissesBlocks`), and for blocks with
  `start <= end` its pairs are disjoint
  (`Availability.AvailabilityAvoidsBlocks`).
- **The deadline coefficient.** The comment says the coefficient rises as
  the deadline approaches. The formula makes it grow with the time left
  (`Scoring.DeadlineMultiplierMonotone`).
- **No "flex" flag and no day-part viability check.** Viability checks only
  "nobox", the inception and the duration. Day parts only enter the
  score.
- **Viability uses the window end.** The duration is compared with the
  window end, not with the end of the free pair. An event can therefore
  be placed over a busy block (`Scheduler.PlacedOverBusyBlock`).
- **Candidates are not filtered on their previous start.** The code
  filters only on completion and inception, and freezing compares the
  previous start with `now`, not with the window start.
- **Consecutive ongoing events are not all frozen.** Removing an ongoing
  event while iterating skips the next one, which stays in the queue
  (`Scheduler.FreezeSkipsNext`).

## Left out

- The database query is left out. The schedule's events are an input
  list, and the filter on completion and inception is `Scheduler.Candidates`.
- Clock reads are inputs. `now` is one input, although the source calls
  `timezone.now()` twice per event (lines 108 and 114).
- Time-of-day conversion is an input. The conversion into the schedule's
  timezone (scheduler.py:70) is the function `tod` of `Scheduler.Setup`.
- Logging is not modelled (scheduler.py:44, 116, 139, 145).
- Floating point is not modelled. Priorities and the mean are exact real
  numbers, and rounding is ignored.
- The Django model methods are not part of this model. `Block.overlaps`,
  `Event.has_flag`, `get_duration` and `get_contexts` are written out
  directly:
  - the overlap test of a block against a pair;
  - flag membership in a set of recognised flags;
  - a duration in whole seconds;
  - a set of context names.
- Server-side filtering of the `schedule` foreign key is not modelled.
- The rest of gcal.py is left out: the integrator class, the Google API
  calls and the credential handling. So are the other integrators. All
  of it is I/O over foreign libraries.
- Gcal.Agree: `datetime.fromisoformat` is an input `parse` from strings to
  instants, not the ISO 8601 grammar.
  - A naive and an aware value differ, and their subtraction raises
    `TypeError`, which the source catches.
  - The sub-microsecond rounding of `total_seconds()` is not modelled.
- Gcal.Same: JSON numbers are integers. Floats and Python's `1 == 1.0`
  are not modelled.
- Gcal.Value: object keys are assumed distinct. This holds for every
  decoded dict but the type does not enforce it. The reflexivity lemmas
  assume it (`Gcal.WellKeyed`).
- Scheduler lemmas about the whole run assume distinct primary keys
  (`Scheduler.DistinctIds`), as database rows have.
