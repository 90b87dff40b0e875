/** The three per-minute judgements of the greedy scheduler: whether an event
    may be placed at a minute at all, how urgent it is, and how well a
    minute suits it. Times are seconds; a minute's local time of day is
    given as seconds since local midnight. */
module Scoring {
  import opened Wrappers
  import opened Lists
  import opened Models

  const Minute: int := 60
  const Hour: int := 3600
  const Day: int := 86400

  /** `timedelta.days` of a span of seconds: rounded down, also when negative. */
  function Days(delta: int): (d: int)
    ensures d * 86400 <= delta < d * 86400 + 86400
  {
    delta / Day
  }

  lemma {:induction false} DaysMonotone(a: int, b: int)
    requires a <= b
    ensures Days(a) <= Days(b)
  {
    var da, db := Days(a), Days(b);
    assert da * 86400 <= a && b < db * 86400 + 86400;
  }

  // ---------------------------------------------------------------------------
  // Viability: the hard constraints.

  /** `_viable_at(schedule, minute, end, event)`. The duration has to fit
      before `end`, the end of the whole window. */
  predicate Viable(minute: int, end: int, e: Event) {
    && NoBox !in e.flags
    && (e.inception.None? || e.inception.value <= minute)
    && (e.duration.None? || e.duration.value <= end - minute)
  }

  /** The minutes at which an event is viable form one range: from its
      inception up to the last start at which its duration still fits. */
  lemma ViableBetween(m1: int, m: int, m2: int, end: int, e: Event)
    requires m1 <= m <= m2 && Viable(m1, end, e) && Viable(m2, end, e)
    ensures Viable(m, end, e)
  {
  }

  /** A `nobox` event is viable nowhere; an event without flags, inception
      or duration is viable everywhere. */
  lemma ViableExtremes(m: int, end: int, e: Event)
    ensures NoBox in e.flags ==> !Viable(m, end, e)
    ensures e.flags == {} && e.inception.None? && e.duration.None? ==> Viable(m, end, e)
    ensures Viable(m, end, e) && e.duration.Some? ==> m + e.duration.value <= end
  {
  }

  // ---------------------------------------------------------------------------
  // Priority.

  /** The priority tiers in the order they are tested. */
  const PriorityTiers: seq<(Flag, real)> := [(P1, 4.0), (P2, 3.0), (P3, 2.0), (P4, 1.0), (Minor, 0.0)]

  /** The weight of the first tier whose flag is present, else `default`. */
  function FirstTier(tiers: seq<(Flag, real)>, flags: set<Flag>, default: real): real {
    if tiers == [] then default
    else if tiers[0].0 in flags then tiers[0].1
    else FirstTier(tiers[1..], flags, default)
  }

  /** The base priority: 1 unless a tier flag says otherwise. */
  function BasePriority(flags: set<Flag>): (r: real)
    ensures 0.0 <= r <= 4.0
    ensures r == 0.0 <==> Minor in flags && P1 !in flags && P2 !in flags && P3 !in flags && P4 !in flags
    ensures r == 4.0 <==> P1 in flags
  {
    if P1 in flags then 4.0
    else if P2 in flags then 3.0
    else if P3 in flags then 2.0
    else if P4 in flags then 1.0
    else if Minor in flags then 0.0
    else 1.0
  }

  /** The chain of tests is a first-match lookup in the tier table. */
  lemma BasePriorityIsFirstTier(flags: set<Flag>)
    ensures BasePriority(flags) == FirstTier(PriorityTiers, flags, 1.0)
  {
    var t0 := PriorityTiers;
    var t1 := [(P2, 3.0), (P3, 2.0), (P4, 1.0), (Minor, 0.0)];
    var t2 := [(P3, 2.0), (P4, 1.0), (Minor, 0.0)];
    var t3 := [(P4, 1.0), (Minor, 0.0)];
    var t4 := [(Minor, 0.0)];
    assert t0[1..] == t1 && t1[1..] == t2 && t2[1..] == t3 && t3[1..] == t4 && t4[1..] == [];
    assert FirstTier(t4, flags, 1.0) == if Minor in flags then 0.0 else 1.0;
    assert FirstTier(t3, flags, 1.0) == if P4 in flags then 1.0 else FirstTier(t4, flags, 1.0);
    assert FirstTier(t2, flags, 1.0) == if P3 in flags then 2.0 else FirstTier(t3, flags, 1.0);
    assert FirstTier(t1, flags, 1.0) == if P2 in flags then 3.0 else FirstTier(t2, flags, 1.0);
    assert FirstTier(t0, flags, 1.0) == if P1 in flags then 4.0 else FirstTier(t1, flags, 1.0);
  }

  function MinInt(a: int, b: int): int { if a <= b then a else b }

  function MaxReal(a: real, b: real): real { if a >= b then a else b }

  /** Up to one point for age: a 28th per whole day since inception, capped
      at 28 days. */
  function AgeBonus(age: int): (r: real)
    ensures r <= 1.0
    ensures age >= 0 ==> r >= 0.0
    ensures age >= 28 * Day ==> r == 1.0
  {
    (MinInt(Days(age), 28) as real) / 28.0
  }

  lemma {:induction false} AgeBonusMonotone(a: int, b: int)
    requires a <= b
    ensures AgeBonus(a) <= AgeBonus(b)
  {
    DaysMonotone(a, b);
  }

  /** The deadline coefficient: `(days until the deadline + 14) / 7`, never
      below 1. It grows with the distance to the deadline. */
  function DeadlineMultiplier(until: int): (r: real)
    ensures r >= 1.0
    ensures r == 1.0 <==> Days(until) <= -7
  {
    MaxReal(1.0, ((Days(until) + 14) as real) / 7.0)
  }

  lemma {:induction false} DeadlineMultiplierMonotone(a: int, b: int)
    requires a <= b
    ensures DeadlineMultiplier(a) <= DeadlineMultiplier(b)
  {
    DaysMonotone(a, b);
  }

  /** Fourteen days out the coefficient is 4, on the deadline day it is 2,
      and a week or more past the deadline it is 1. */
  lemma DeadlineMultiplierPoints()
    ensures DeadlineMultiplier(14 * Day) == 4.0
    ensures DeadlineMultiplier(0) == 2.0
    ensures DeadlineMultiplier(-7 * Day) == 1.0
  {
    assert Days(14 * Day) == 14;
    assert Days(0) == 0;
    assert Days(-7 * Day) == -7;
  }

  /** The base priority plus the age bonus. */
  function AgedPriority(e: Event, at: int): (r: real)
    ensures r <= BasePriority(e.flags) + 1.0
    ensures (e.inception.None? || e.inception.value <= at) ==> r >= BasePriority(e.flags)
  {
    BasePriority(e.flags) + if e.inception.Some? then AgeBonus(at - e.inception.value) else 0.0
  }

  /** `_priority_at(schedule, at, event)`. */
  function Priority(e: Event, at: int): (r: real)
    ensures e.inception.None? && e.deadline.None? ==> r == BasePriority(e.flags)
    ensures e.deadline.None? ==> r <= BasePriority(e.flags) + 1.0
  {
    var aged := AgedPriority(e, at);
    if e.deadline.Some? then Weigh(aged, e.deadline.value - at) else aged
  }

  /** An event that is not younger than `at` has at least its base priority. */
  lemma {:induction false} PriorityAtLeastBase(e: Event, at: int)
    requires e.inception.None? || e.inception.value <= at
    ensures Priority(e, at) >= BasePriority(e.flags) >= 0.0
  {
    if e.deadline.Some? {
      ScaleMonotone(AgedPriority(e, at), 1.0, DeadlineMultiplier(e.deadline.value - at));
    }
  }

  /** Moving the deadline further away never lowers the priority of an event
      that is not younger than `at`, contrary to the code comment that the
      coefficient increases as the deadline approaches. */
  lemma {:induction false} LaterDeadlineNotLower(e1: Event, e2: Event, at: int)
    requires e1.flags == e2.flags && e1.inception == e2.inception
    requires e1.deadline.Some? && e2.deadline.Some? && e1.deadline.value <= e2.deadline.value
    requires e1.inception.None? || e1.inception.value <= at
    ensures Priority(e1, at) <= Priority(e2, at)
  {
    assert AgedPriority(e2, at) == AgedPriority(e1, at);
    WeighMonotone(AgedPriority(e1, at), e1.deadline.value - at, e2.deadline.value - at);
  }

  /** The aged priority scaled by the deadline coefficient. */
  function Weigh(aged: real, until: int): real {
    aged * DeadlineMultiplier(until)
  }

  /** For a non-negative priority, a later deadline weighs at least as much. */
  lemma {:induction false} WeighMonotone(a: real, u1: int, u2: int)
    requires a >= 0.0 && u1 <= u2
    ensures Weigh(a, u1) <= Weigh(a, u2)
  {
    DeadlineMultiplierMonotone(u1, u2);
    ScaleMonotone(a, DeadlineMultiplier(u1), DeadlineMultiplier(u2));
  }

  lemma ScaleMonotone(a: real, x: real, y: real)
    requires a >= 0.0 && x <= y
    ensures a * x <= a * y
  {
    assert a * y - a * x == a * (y - x);
  }

  // ---------------------------------------------------------------------------
  // Suitability.

  /** The day-part windows the flags ask for, as (earliest, latest) times of
      day, in the order the flags are tested. */
  function DayParts(flags: set<Flag>): seq<(int, int)> {
    (if Morning in flags then [(7 * Hour, 12 * Hour)] else [])
    + (if Afternoon in flags then [(12 * Hour, 17 * Hour)] else [])
    + (if Evening in flags then [(17 * Hour, 22 * Hour)] else [])
    + (if Daytime in flags then [(7 * Hour, 17 * Hour)] else [])
  }

  lemma DayPartsEmpty(flags: set<Flag>)
    ensures DayParts(flags) == [] <==> Morning !in flags && Afternoon !in flags && Evening !in flags && Daytime !in flags
  {
  }

  /** `min(earliest)`. */
  function MinEarliest(ws: seq<(int, int)>): (r: int)
    requires ws != []
    ensures exists w :: w in ws && w.0 == r
    ensures forall w :: w in ws ==> r <= w.0
  {
    if |ws| == 1 then ws[0].0
    else
      var m := MinEarliest(ws[1..]);
      assert forall w :: w in ws ==> w == ws[0] || w in ws[1..];
      if ws[0].0 <= m then ws[0].0 else m
  }

  /** `max(latest)`. */
  function MaxLatest(ws: seq<(int, int)>): (r: int)
    requires ws != []
    ensures exists w :: w in ws && w.1 == r
    ensures forall w :: w in ws ==> w.1 <= r
  {
    if |ws| == 1 then ws[0].1
    else
      var m := MaxLatest(ws[1..]);
      assert forall w :: w in ws ==> w == ws[0] || w in ws[1..];
      if ws[0].1 >= m then ws[0].1 else m
  }

  /** The time-of-day factor: none without day-part flags, else +10 when the
      local time lies between the earliest start and the latest end of the
      requested windows (both inclusive) and -10 otherwise. */
  function DayPartFactor(flags: set<Flag>, tod: int): Option<int> {
    var ws := DayParts(flags);
    if ws == [] then None
    else if tod < MinEarliest(ws) || tod > MaxLatest(ws) then Some(-10)
    else Some(10)
  }

  /** The factor is +10 exactly when some requested window starts no later
      than the time and some requested window ends no earlier than it: the
      range is the hull of the windows, not their union. */
  lemma DayPartFactorIff(flags: set<Flag>, tod: int)
    ensures DayPartFactor(flags, tod).None? <==> DayParts(flags) == []
    ensures DayPartFactor(flags, tod) == Some(10)
        <==> (exists w :: w in DayParts(flags) && w.0 <= tod) && (exists w :: w in DayParts(flags) && tod <= w.1)
    ensures DayPartFactor(flags, tod).Some? ==> DayPartFactor(flags, tod) == Some(10) || DayPartFactor(flags, tod) == Some(-10)
  {
    var ws := DayParts(flags);
    if ws != [] {
      var lo, hi := MinEarliest(ws), MaxLatest(ws);
      var wl :| wl in ws && wl.0 == lo;
      var wh :| wh in ws && wh.1 == hi;
      if lo <= tod <= hi {
        assert wl in ws && wl.0 <= tod;
        assert wh in ws && tod <= wh.1;
      }
    }
  }

  /** `morning` plus `evening` also accepts the afternoon between them. */
  lemma MorningAndEveningSpanAfternoon()
    ensures DayPartFactor({Morning, Evening}, 14 * Hour) == Some(10)
    ensures DayPartFactor({Morning}, 14 * Hour) == Some(-10)
    ensures DayPartFactor({Morning}, 12 * Hour) == Some(10)
  {
    DayPartFactorIff({Morning, Evening}, 14 * Hour);
    assert (7 * Hour, 12 * Hour) in DayParts({Morning, Evening});
    assert (17 * Hour, 22 * Hour) in DayParts({Morning, Evening});
    assert DayParts({Morning}) == [(7 * Hour, 12 * Hour)];
  }

  /** Every event in the list has been given a start. */
  ghost predicate AllPlaced(s: seq<Event>) {
    forall e :: e in s ==> e.scheduled.Some?
  }

  function ScheduledKey(e: Event): real {
    if e.scheduled.Some? then e.scheduled.value as real else 0.0
  }

  /** `filter(lambda k: k.scheduled < minute, ...)`. */
  function PlacedBefore(s: seq<Event>, minute: int): (r: seq<Event>)
    requires AllPlaced(s)
    ensures forall e :: e in r <==> e in s && e.scheduled.value < minute
  {
    if s == [] then []
    else
      assert forall e :: e in s <==> e == s[0] || e in s[1..];
      (if s[0].scheduled.value < minute then [s[0]] else []) + PlacedBefore(s[1..], minute)
  }

  /** Filtering keeps a list sorted. */
  lemma {:induction false} PlacedBeforeSorted(s: seq<Event>, minute: int)
    requires AllPlaced(s) && SortedBy(s, ScheduledKey)
    ensures SortedBy(PlacedBefore(s, minute), ScheduledKey)
  {
    if s != [] {
      assert AllPlaced(s[1..]) by {
        forall e | e in s[1..] ensures e.scheduled.Some? {
          assert e in s;
        }
      }
      SortedByTail(s, ScheduledKey);
      PlacedBeforeSorted(s[1..], minute);
      var rest := PlacedBefore(s[1..], minute);
      if s[0].scheduled.value < minute {
        SortedCons(s[0], rest, ScheduledKey);
      } else {
        assert PlacedBefore(s, minute) == [] + rest;
      }
    }
  }

  /** The already-placed event that starts last strictly before `minute`,
      if any: the last of those events once sorted by start. */
  function Prior(placed: seq<Event>, minute: int): Option<Event>
    requires AllPlaced(placed)
  {
    var sorted := SortBy(placed, ScheduledKey);
    assert AllPlaced(sorted) by {
      forall e | e in sorted ensures e.scheduled.Some? {
        assert e in multiset(sorted);
      }
    }
    var before := PlacedBefore(sorted, minute);
    if before == [] then None else Some(before[|before| - 1])
  }

  /** `Prior` is an event placed before the minute that starts no earlier
      than any other such event, and there is one exactly when some placed
      event starts before the minute. */
  lemma {:induction false} PriorIsLatest(placed: seq<Event>, minute: int)
    requires AllPlaced(placed)
    ensures Prior(placed, minute).None? <==> forall e :: e in placed ==> e.scheduled.value >= minute
    ensures Prior(placed, minute).Some? ==>
      var p := Prior(placed, minute).value;
      && p in placed
      && p.scheduled.value < minute
      && forall e :: e in placed && e.scheduled.value < minute ==> e.scheduled.value <= p.scheduled.value
  {
    var sorted := SortBy(placed, ScheduledKey);
    SortBySorted(placed, ScheduledKey);
    forall e ensures e in sorted <==> e in placed {
      assert e in sorted <==> e in multiset(sorted);
    }
    var before := PlacedBefore(sorted, minute);
    if before != [] {
      var p := before[|before| - 1];
      assert p in before;
      assert AllPlaced(sorted);
      PlacedBeforeSorted(sorted, minute);
      forall e | e in placed && e.scheduled.value < minute ensures e.scheduled.value <= p.scheduled.value {
        assert e in before;
        var k :| 0 <= k < |before| && before[k] == e;
        if k < |before| - 1 {
          assert ScheduledKey(before[k]) <= ScheduledKey(before[|before| - 1]);
        }
      }
    } else {
      forall e | e in placed ensures e.scheduled.value >= minute {
        assert e !in before;
      }
    }
  }

  /** The contexts shared with the prior event. */
  function ContextFactor(prior: Event, e: Event): (r: nat)
    ensures r <= |e.contexts|
  {
    assert prior.contexts * e.contexts <= e.contexts;
    SubsetCard(prior.contexts * e.contexts, e.contexts);
    |prior.contexts * e.contexts|
  }

  lemma {:induction false} SubsetCard<T>(a: set<T>, b: set<T>)
    requires a <= b
    ensures |a| <= |b|
  {
    if a != {} {
      var x :| x in a;
      SubsetCard(a - {x}, b - {x});
    }
  }

  /** Reading the hours of a time span raises: a CONSISTENCY schedule fails
      on every event that already has a start. */
  predicate SuitabilityFails(schedule: Schedule, e: Event) {
    schedule.behavior == Consistency && e.scheduled.Some?
  }

  function Sum(s: seq<int>): int {
    if s == [] then 0 else s[0] + Sum(s[1..])
  }

  lemma SumSmall(a: int, b: int, c: int)
    ensures Sum([a]) == a && Sum([a, b]) == a + b && Sum([a, b, c]) == a + b + c
  {
    assert [a][1..] == [] && [a, b][1..] == [b] && [a, b, c][1..] == [b, c] && [b, c][1..] == [c];
    assert Sum([c]) == c;
    assert Sum([b]) == b;
    assert Sum([b, c]) == b + c;
  }

  /** `statistics.mean`, exact. */
  function Mean(s: seq<int>): real
    requires s != []
  {
    (Sum(s) as real) / (|s| as real)
  }

  /** The factor list: the seed 0, then the time-of-day factor, then the
      context factor. */
  function Factors(tod: int, placed: seq<Event>, minute: int, e: Event): (r: seq<int>)
    requires AllPlaced(placed)
    ensures r != [] && r[0] == 0 && |r| <= 3
  {
    var df := DayPartFactor(e.flags, tod);
    var pr := Prior(placed, minute);
    [0]
    + (if df.Some? then [df.value] else [])
    + (if pr.Some? then [ContextFactor(pr.value, e)] else [])
  }

  /** `_suitability_at(schedule, minute, placed, event)`, where `tod` is the
      minute's local time of day. */
  function Suitability(schedule: Schedule, minute: int, tod: int, placed: seq<Event>, e: Event): (r: Result<real>)
    requires AllPlaced(placed)
    ensures r.Failure? <==> SuitabilityFails(schedule, e)
  {
    if SuitabilityFails(schedule, e) then Failure("AttributeError")
    else Success(Mean(Factors(tod, placed, minute, e)))
  }

  /** With no day-part flags and nothing placed before the minute, every
      minute scores 0. */
  lemma {:induction false} SuitabilityNeutral(schedule: Schedule, minute: int, tod: int, placed: seq<Event>, e: Event)
    requires AllPlaced(placed)
    requires !SuitabilityFails(schedule, e)
    requires DayParts(e.flags) == []
    requires forall p :: p in placed ==> p.scheduled.value >= minute
    ensures Suitability(schedule, minute, tod, placed, e) == Success(0.0)
  {
    PriorIsLatest(placed, minute);
    FactorsWithoutDayPart(tod, placed, minute, e);
    assert ContextTail(placed, minute, e) == [];
    assert Factors(tod, placed, minute, e) == [0];
    MeanOfOne(0);
  }

  /** With no day-part flags, the score after an earlier placed event is half
      the number of contexts the two share. */
  lemma {:induction false} SuitabilityContext(schedule: Schedule, minute: int, tod: int, placed: seq<Event>, e: Event)
    requires AllPlaced(placed)
    requires !SuitabilityFails(schedule, e)
    requires DayParts(e.flags) == []
    requires Prior(placed, minute).Some?
    ensures Suitability(schedule, minute, tod, placed, e)
         == Success((|Prior(placed, minute).value.contexts * e.contexts| as real) / 2.0)
  {
    var n := |Prior(placed, minute).value.contexts * e.contexts|;
    FactorsWithoutDayPart(tod, placed, minute, e);
    ContextTailOfPrior(placed, minute, e);
    MeanOfHalf(n);
  }

  lemma MeanOfOne(a: int)
    ensures Mean([a]) == a as real
  {
    SumSmall(a, 0, 0);
  }

  lemma MeanOfHalf(n: int)
    ensures Mean([0] + [n]) == (n as real) / 2.0
  {
    assert [0] + [n] == [0, n];
    SumSmall(0, n, 0);
  }

  /** A +10 day-part factor gives a higher mean than a -10 one, with or
      without a context factor `c`. */
  lemma MeansCompare(c: int)
    ensures Mean([0, 10, c]) > Mean([0, -10, c])
    ensures Mean([0, 10]) > Mean([0, -10])
  {
    SumSmall(0, 10, c);
    SumSmall(0, -10, c);
  }

  /** Of two minutes with the same earlier placed events, one inside the
      requested day part scores higher than one outside it. */
  lemma {:induction false} SuitabilityPrefersDayPart(schedule: Schedule, m1: int, t1: int, m2: int, t2: int, placed: seq<Event>, e: Event)
    requires AllPlaced(placed)
    requires !SuitabilityFails(schedule, e)
    requires DayPartFactor(e.flags, t1) == Some(10) && DayPartFactor(e.flags, t2) == Some(-10)
    requires Prior(placed, m1) == Prior(placed, m2)
    ensures Suitability(schedule, m1, t1, placed, e).value > Suitability(schedule, m2, t2, placed, e).value
  {
    FactorsWithDayPart(t1, placed, m1, e, 10);
    FactorsWithDayPart(t2, placed, m2, e, -10);
    MeansCompareWith(ContextTail(placed, m1, e));
  }

  /** The optional context factor at the end of the factor list. */
  function ContextTail(placed: seq<Event>, minute: int, e: Event): (r: seq<int>)
    requires AllPlaced(placed)
    ensures |r| <= 1
  {
    var pr := Prior(placed, minute);
    if pr.Some? then [ContextFactor(pr.value, e) as int] else []
  }

  /** The context factor after an earlier placed event counts the shared contexts. */
  lemma ContextTailOfPrior(placed: seq<Event>, minute: int, e: Event)
    requires AllPlaced(placed) && Prior(placed, minute).Some?
    ensures ContextTail(placed, minute, e) == [|Prior(placed, minute).value.contexts * e.contexts|]
  {
  }

  /** The factor list of an event without day-part flags. */
  lemma FactorsWithoutDayPart(tod: int, placed: seq<Event>, minute: int, e: Event)
    requires AllPlaced(placed)
    requires DayParts(e.flags) == []
    ensures Factors(tod, placed, minute, e) == [0] + ContextTail(placed, minute, e)
  {
  }

  /** The factor list of a minute whose day-part factor is `d`. */
  lemma FactorsWithDayPart(tod: int, placed: seq<Event>, minute: int, e: Event, d: int)
    requires AllPlaced(placed)
    requires DayPartFactor(e.flags, tod) == Some(d)
    ensures Factors(tod, placed, minute, e) == [0, d] + ContextTail(placed, minute, e)
  {
  }

  /** The mean comparison behind `SuitabilityPrefersDayPart`, with the
      optional context factor as `tail`. */
  lemma MeansCompareWith(tail: seq<int>)
    requires |tail| <= 1
    ensures Mean([0, 10] + tail) > Mean([0, -10] + tail)
  {
    if tail == [] {
      assert [0, 10] + tail == [0, 10] && [0, -10] + tail == [0, -10];
      MeansCompare(0);
    } else {
      assert [0, 10] + tail == [0, 10, tail[0]] && [0, -10] + tail == [0, -10, tail[0]];
      MeansCompare(tail[0]);
    }
  }
}
