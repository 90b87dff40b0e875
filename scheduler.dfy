/** `build_schedule`: the greedy scheduler. Candidates are sorted by priority
    at the end of the window, events that are still running are frozen as
    busy blocks, and then each remaining event in turn takes the first minute
    of best suitability inside the current free time. */
module Scheduler {
  import opened Wrappers
  import opened Lists
  import opened Models
  import opened Availability
  import opened Scoring

  // ---------------------------------------------------------------------------
  // Candidates and their order.

  /** The query's condition: not completed, and not starting at or after the
      end of the window. */
  predicate Open(e: Event, end: int) {
    !e.completed && (e.inception.None? || e.inception.value < end)
  }

  /** The schedule's events that the query returns, in their given order. */
  function Candidates(events: seq<Event>, end: int): (r: seq<Event>)
    ensures forall e :: e in r <==> e in events && Open(e, end)
    ensures |r| <= |events|
  {
    if events == [] then []
    else
      assert forall e :: e in events <==> e == events[0] || e in events[1..];
      (if Open(events[0], end) then [events[0]] else []) + Candidates(events[1..], end)
  }

  /** The sort key of `sorted(..., key=priority, reverse=True)`, negated so that
      an ascending stable sort gives the descending stable order. */
  function Urgency(end: int): Event -> real {
    e => -Priority(e, end)
  }

  /** The candidates, most urgent first. */
  function Ordered(events: seq<Event>, end: int): (r: seq<Event>)
    ensures multiset(r) == multiset(Candidates(events, end))
  {
    SortBy(Candidates(events, end), Urgency(end))
  }

  /** Priorities at the window's end never increase along the order. */
  lemma {:induction false} OrderedByPriority(events: seq<Event>, end: int)
    ensures forall i, j :: 0 <= i < j < |Ordered(events, end)|
              ==> Priority(Ordered(events, end)[i], end) >= Priority(Ordered(events, end)[j], end)
  {
    var r := Ordered(events, end);
    SortBySorted(Candidates(events, end), Urgency(end));
    forall i, j | 0 <= i < j < |r| ensures Priority(r[i], end) >= Priority(r[j], end) {
      assert Urgency(end)(r[i]) <= Urgency(end)(r[j]);
    }
  }

  /** Candidates of equal priority keep the order in which they were given:
      the events of urgency `k` (priority `-k`) appear in the sorted list in
      the same order as among the candidates. */
  lemma {:induction false} OrderedStable(events: seq<Event>, end: int, k: real)
    ensures WithKey(Ordered(events, end), Urgency(end), k) == WithKey(Candidates(events, end), Urgency(end), k)
  {
    SortedStable(Ordered(events, end), Candidates(events, end), Urgency(end), k);
  }

  // ---------------------------------------------------------------------------
  // Events still running are frozen.

  /** Where an event placed earlier is expected to end: not before its start
      exactly when its duration is not negative. */
  function ExpectedEnd(e: Event): (r: int)
    requires e.scheduled.Some?
    ensures r >= e.scheduled.value <==> ForwardDuration(e)
  {
    e.scheduled.value + if e.duration.Some? then e.duration.value else 0
  }

  /** Started at or before `now`, and not yet past its expected end plus the
      grace period of `rescheduleAfter` minutes. */
  predicate Ongoing(e: Event, now: int, rescheduleAfter: int) {
    e.scheduled.Some? && e.scheduled.value <= now && ExpectedEnd(e) + rescheduleAfter * Minute > now
  }

  /** The span a frozen event keeps busy: from its start to its expected end. */
  function OngoingBlock(e: Event): (r: Block)
    requires e.scheduled.Some?
    ensures r.start == e.scheduled.value
    ensures r.start <= r.end <==> ForwardDuration(e)
  {
    Block(e.scheduled.value, ExpectedEnd(e))
  }

  function OngoingBlocks(s: seq<Event>): seq<Block>
    requires forall e :: e in s ==> e.scheduled.Some?
  {
    if s == [] then [] else [OngoingBlock(s[0])] + OngoingBlocks(s[1..])
  }

  /** Model instances compare by primary key: `list.remove` drops the first
      event with the given id. */
  function RemoveById(s: seq<Event>, id: nat): (r: seq<Event>)
    ensures |r| <= |s|
    ensures forall x :: x in r ==> x in s
    ensures (exists k :: 0 <= k < |s| && s[k].id == id) ==> |r| == |s| - 1
  {
    if s == [] then []
    else if s[0].id == id then s[1..]
    else
      assert forall k :: 1 <= k < |s| ==> s[k] == s[1..][k - 1];
      [s[0]] + RemoveById(s[1..], id)
  }

  /** No two events share a primary key, as in any query result. */
  ghost predicate DistinctIds(s: seq<Event>) {
    forall p, q :: 0 <= p < q < |s| ==> s[p].id != s[q].id
  }

  lemma {:induction false} RemoveByIdAt(s: seq<Event>, j: nat)
    requires j < |s| && DistinctIds(s)
    ensures RemoveById(s, s[j].id) == s[..j] + s[j + 1..]
  {
    if j > 0 {
      assert s[1..][j - 1] == s[j];
      assert DistinctIds(s[1..]) by {
        forall p, q | 0 <= p < q < |s[1..]| ensures s[1..][p].id != s[1..][q].id {
          assert s[1..][p] == s[p + 1] && s[1..][q] == s[q + 1];
        }
      }
      RemoveByIdAt(s[1..], j - 1);
      assert s[1..][..j - 1] == s[1..j];
      assert s[1..][j..] == s[j + 1..];
      assert [s[0]] + s[1..j] == s[..j];
    }
  }

  /** The outcome of the filter: the list left after the removals, and the
      events removed, in the order they were visited. */
  datatype Frozen = Frozen(kept: seq<Event>, frozen: seq<Event>)

  /** The `for event in events` loop from iterator index `i`, removing ongoing
      events from the list it walks. A removal shifts the rest left while the
      index still advances, so the event right after a removed one is not
      visited. */
  function Freeze(s: seq<Event>, i: nat, now: int, rescheduleAfter: int): (r: Frozen)
    ensures forall e :: e in r.frozen ==> Ongoing(e, now, rescheduleAfter) && e in s
    ensures forall e :: e in r.kept ==> e in s
    decreases |s| - i
  {
    if i >= |s| then Frozen(s, [])
    else if Ongoing(s[i], now, rescheduleAfter) then
      var rest := Freeze(RemoveById(s, s[i].id), i + 1, now, rescheduleAfter);
      Frozen(rest.kept, [s[i]] + rest.frozen)
    else Freeze(s, i + 1, now, rescheduleAfter)
  }

  /** The filter loop, appending each frozen event's expected span to `blocks`. */
  method FreezeOngoing(events: seq<Event>, blocks: seq<Block>, now: int, rescheduleAfter: int)
    returns (kept: seq<Event>, blocksOut: seq<Block>)
    ensures kept == Freeze(events, 0, now, rescheduleAfter).kept
    ensures blocksOut == blocks + OngoingBlocks(Freeze(events, 0, now, rescheduleAfter).frozen)
  {
    ghost var goal := Freeze(events, 0, now, rescheduleAfter);
    kept, blocksOut := events, blocks;
    var i := 0;
    while i < |kept|
      invariant Freeze(kept, i, now, rescheduleAfter).kept == goal.kept
      invariant blocksOut + OngoingBlocks(Freeze(kept, i, now, rescheduleAfter).frozen)
             == blocks + OngoingBlocks(goal.frozen)
      decreases |kept| - i
    {
      var event := kept[i];
      i := i + 1;
      if Ongoing(event, now, rescheduleAfter) {
        ghost var rest := Freeze(RemoveById(kept, event.id), i, now, rescheduleAfter);
        assert OngoingBlocks([event] + rest.frozen) == [OngoingBlock(event)] + OngoingBlocks(rest.frozen);
        kept := RemoveById(kept, event.id);
        blocksOut := blocksOut + [OngoingBlock(event)];
      }
    }
  }

  /** With distinct ids the filter splits its input into the list it leaves
      and the events it froze, each part in input order; the first `i`
      events, already visited, are left in place. */
  lemma {:induction false} FreezeSplits(s: seq<Event>, i: nat, now: int, rescheduleAfter: int)
    requires i <= |s| && DistinctIds(s)
    ensures |Freeze(s, i, now, rescheduleAfter).kept| >= i
    ensures Freeze(s, i, now, rescheduleAfter).kept[..i] == s[..i]
    ensures Interleaves(s[i..], Freeze(s, i, now, rescheduleAfter).kept[i..], Freeze(s, i, now, rescheduleAfter).frozen)
    decreases |s| - i
  {
    var r := Freeze(s, i, now, rescheduleAfter);
    if i == |s| {
      assert s[i..] == [] && r.kept[i..] == [];
    } else if Ongoing(s[i], now, rescheduleAfter) {
      FreezeSplitsRemoved(s, i, now, rescheduleAfter);
    } else {
      FreezeSplits(s, i + 1, now, rescheduleAfter);
      assert s[i..] == [s[i]] + s[i + 1..];
      assert r.kept[i..] == [s[i]] + r.kept[i + 1..];
      InterleavesConsLeft(s[i], s[i + 1..], r.kept[i + 1..], r.frozen);
      assert r.kept[..i] == r.kept[..i + 1][..i];
    }
  }

  /** The step of `FreezeSplits` where the visited event is removed. */
  lemma {:induction false} FreezeSplitsRemoved(s: seq<Event>, i: nat, now: int, rescheduleAfter: int)
    requires i < |s| && DistinctIds(s) && Ongoing(s[i], now, rescheduleAfter)
    ensures |Freeze(s, i, now, rescheduleAfter).kept| >= i
    ensures Freeze(s, i, now, rescheduleAfter).kept[..i] == s[..i]
    ensures Interleaves(s[i..], Freeze(s, i, now, rescheduleAfter).kept[i..], Freeze(s, i, now, rescheduleAfter).frozen)
    decreases |s| - i, 0
  {
    var s' := s[..i] + s[i + 1..];
    RemoveByIdAt(s, i);
    DistinctCut(s, i);
    var rest := Freeze(s', i + 1, now, rescheduleAfter);
    var r := Freeze(s, i, now, rescheduleAfter);
    assert r == Frozen(rest.kept, [s[i]] + rest.frozen);
    if i + 1 > |s'| {
      assert rest == Frozen(s', []);
      assert r.kept == s[..i];
      assert s[i..] == [s[i]] + [] && r.kept[i..] == [];
      assert r.frozen == [s[i]] + [];
      InterleavesConsRight(s[i], [], [], []);
    } else {
      FreezeSplits(s', i + 1, now, rescheduleAfter);
      assert s'[i + 1..] == s[i + 2..];
      CutSplit(s, i, rest.kept, rest.frozen);
    }
  }

  /** Cutting one element out of a list with distinct ids leaves them distinct. */
  lemma DistinctCut(s: seq<Event>, i: nat)
    requires i < |s| && DistinctIds(s)
    ensures DistinctIds(s[..i] + s[i + 1..])
  {
    var s' := s[..i] + s[i + 1..];
    forall p, q | 0 <= p < q < |s'| ensures s'[p].id != s'[q].id {
      var mp := if p < i then p else p + 1;
      var mq := if q < i then q else q + 1;
      assert s'[p] == s[mp] && s'[q] == s[mq];
    }
  }

  /** The list bookkeeping of a removal at `i`: if what is left after the
      cut is split from `i + 1` on, the original list is split from `i` on,
      the removed element going to the frozen part. */
  lemma CutSplit(s: seq<Event>, i: nat, kept: seq<Event>, frozen: seq<Event>)
    requires i + 1 < |s|
    requires |kept| >= i + 1 && kept[..i + 1] == (s[..i] + s[i + 1..])[..i + 1]
    requires Interleaves(s[i + 2..], kept[i + 1..], frozen)
    ensures kept[..i] == s[..i]
    ensures Interleaves(s[i..], kept[i..], [s[i]] + frozen)
  {
    var s' := s[..i] + s[i + 1..];
    assert kept[i] == s'[i] == s[i + 1];
    assert kept[i..] == [s[i + 1]] + kept[i + 1..];
    InterleavesConsLeft(s[i + 1], s[i + 2..], kept[i + 1..], frozen);
    assert s[i + 1..] == [s[i + 1]] + s[i + 2..];
    InterleavesConsRight(s[i], s[i + 1..], kept[i..], frozen);
    assert s[i..] == [s[i]] + s[i + 1..];
    assert kept[..i] == kept[..i + 1][..i] == s'[..i + 1][..i] == s[..i];
  }

  /** An event the filter did not freeze is not lost: every event that is not
      ongoing is still in the list. */
  lemma FreezeKeepsIdle(s: seq<Event>, now: int, rescheduleAfter: int)
    requires DistinctIds(s)
    ensures multiset(s) == multiset(Freeze(s, 0, now, rescheduleAfter).kept) + multiset(Freeze(s, 0, now, rescheduleAfter).frozen)
    ensures forall e :: e in s && !Ongoing(e, now, rescheduleAfter) ==> e in Freeze(s, 0, now, rescheduleAfter).kept
  {
    var r := Freeze(s, 0, now, rescheduleAfter);
    FreezeSplits(s, 0, now, rescheduleAfter);
    assert s[0..] == s && r.kept[0..] == r.kept;
    InterleavesMultiset(s, r.kept, r.frozen);
    forall e | e in s && !Ongoing(e, now, rescheduleAfter) ensures e in r.kept {
      assert e in multiset(s);
      assert e !in multiset(r.frozen);
    }
  }

  /** Of two adjacent ongoing events only the first is frozen: the second is
      skipped by the loop and stays in the list. */
  lemma FreezeSkipsNext()
    ensures var a := Event(1, None, None, Some(600), Some(0), false, {}, {});
            var b := Event(2, None, None, Some(600), Some(0), false, {}, {});
            Ongoing(a, 60, 0) && Ongoing(b, 60, 0)
            && Freeze([a, b], 0, 60, 0) == Frozen([b], [a])
  {
    var a := Event(1, None, None, Some(600), Some(0), false, {}, {});
    var b := Event(2, None, None, Some(600), Some(0), false, {}, {});
    assert RemoveById([a, b], 1) == [b];
    assert Freeze([b], 1, 60, 0) == Frozen([b], []);
  }

  // ---------------------------------------------------------------------------
  // The minute-by-minute scan for one event.

  /** What the scan of one event depends on: the schedule, the end of the
      window, the local time of day of each minute, the events placed so far
      and the event itself. */
  datatype Probe = Probe(schedule: Schedule, end: int, tod: int -> int, placed: seq<Event>, e: Event)

  ghost predicate ProbeReady(c: Probe) {
    AllPlaced(c.placed)
  }

  /** A candidate minute and its suitability. */
  datatype Pick = Pick(time: int, score: real)

  /** The minutes `m, m + 60, ...` before `hi`. */
  function Steps(m: int, hi: int): seq<int>
    decreases hi - m
  {
    if m >= hi then [] else [m] + Steps(m + Minute, hi)
  }

  /** The stepped minutes are exactly the whole minutes after `m` that come
      before `hi`. */
  lemma {:induction false} StepsMembers(m: int, hi: int, x: int)
    ensures x in Steps(m, hi) <==> m <= x < hi && (x - m) % Minute == 0
    decreases hi - m
  {
    if m < hi {
      StepsMembers(m + Minute, hi, x);
      assert x - m == (x - (m + Minute)) + Minute;
    }
  }

  /** The minutes the scan visits: every free interval in order, each walked
      minute by minute from its start. */
  function Minutes(ivs: seq<Interval>): seq<int> {
    if ivs == [] then [] else Steps(ivs[0].start, ivs[0].end) + Minutes(ivs[1..])
  }

  /** Every scanned minute lies in one of the intervals. */
  lemma {:induction false} MinutesInside(ivs: seq<Interval>, m: int)
    requires m in Minutes(ivs)
    ensures exists iv :: iv in ivs && Contains(iv, m)
  {
    if m in Steps(ivs[0].start, ivs[0].end) {
      StepsMembers(ivs[0].start, ivs[0].end, m);
      assert ivs[0] in ivs && Contains(ivs[0], m);
    } else {
      MinutesInside(ivs[1..], m);
      var iv :| iv in ivs[1..] && Contains(iv, m);
      assert iv in ivs;
    }
  }

  /** The suitability of a minute for the probed event, when it does not raise. */
  function Score(c: Probe, m: int): real
    requires ProbeReady(c) && !SuitabilityFails(c.schedule, c.e)
  {
    Suitability(c.schedule, m, c.tod(m), c.placed, c.e).value
  }

  /** The best so far after minute `m` scored `s`: replaced only on a strictly
      higher score. */
  function Better(best: Option<Pick>, m: int, s: real): (r: Option<Pick>)
    ensures r.Some?
    ensures r == best || r == Some(Pick(m, s))
    ensures best.Some? ==> r.value.score >= best.value.score
  {
    if best.None? || s > best.value.score then Some(Pick(m, s)) else best
  }

  /** The scan from best-so-far `best`: at each viable minute the suitability
      is computed (which may raise), and it replaces the best only when it is
      strictly higher. */
  function Scan(c: Probe, ms: seq<int>, best: Option<Pick>): Result<Option<Pick>>
    requires ProbeReady(c)
  {
    if ms == [] then Success(best)
    else if !Viable(ms[0], c.end, c.e) then Scan(c, ms[1..], best)
    else
      match Suitability(c.schedule, ms[0], c.tod(ms[0]), c.placed, c.e)
      case Failure(err) => Failure(err)
      case Success(s) => Scan(c, ms[1..], Better(best, ms[0], s))
  }

  /** One step of the scan. */
  lemma ScanStep(c: Probe, m: int, rest: seq<int>, best: Option<Pick>)
    requires ProbeReady(c)
    ensures var s := Suitability(c.schedule, m, c.tod(m), c.placed, c.e);
            Scan(c, [m] + rest, best)
            == if !Viable(m, c.end, c.e) then Scan(c, rest, best)
               else if s.Failure? then Failure(s.error)
               else Scan(c, rest, Better(best, m, s.value))
  {
    assert ([m] + rest)[0] == m && ([m] + rest)[1..] == rest;
  }

  /** Scanning a concatenation is scanning the first part, then the second
      from where the first left off. */
  lemma {:induction false} ScanConcat(c: Probe, a: seq<int>, b: seq<int>, best: Option<Pick>)
    requires ProbeReady(c)
    ensures Scan(c, a + b, best)
         == match Scan(c, a, best) case Failure(err) => Failure(err) case Success(mid) => Scan(c, b, mid)
  {
    if a != [] {
      assert a == [a[0]] + a[1..];
      assert a + b == [a[0]] + (a[1..] + b);
      ScanStep(c, a[0], a[1..] + b, best);
      ScanStep(c, a[0], a[1..], best);
      if Viable(a[0], c.end, c.e) {
        var s := Suitability(c.schedule, a[0], c.tod(a[0]), c.placed, c.e);
        if s.Success? {
          ScanConcat(c, a[1..], b, Better(best, a[0], s.value));
        }
      } else {
        ScanConcat(c, a[1..], b, best);
      }
    } else {
      assert a + b == b;
    }
  }

  /** The inner `while block_start < block_end` loop over one free interval. */
  method ScanInterval(c: Probe, lo: int, hi: int, best: Option<Pick>) returns (r: Result<Option<Pick>>)
    requires ProbeReady(c)
    ensures r == Scan(c, Steps(lo, hi), best)
  {
    var m := lo;
    var top := best;
    while m < hi
      invariant Scan(c, Steps(m, hi), top) == Scan(c, Steps(lo, hi), best)
      decreases hi - m
    {
      ScanStep(c, m, Steps(m + Minute, hi), top);
      if Viable(m, c.end, c.e) {
        var s := Suitability(c.schedule, m, c.tod(m), c.placed, c.e);
        if s.Failure? {
          return Failure(s.error);
        }
        if top.None? || s.value > top.value.score {
          top := Some(Pick(m, s.value));
        }
      }
      m := m + Minute;
    }
    return Success(top);
  }

  /** The `for block_start, block_end in availability` loop. */
  method ScanAvailability(c: Probe, avail: seq<Interval>) returns (r: Result<Option<Pick>>)
    requires ProbeReady(c)
    ensures r == Scan(c, Minutes(avail), None)
  {
    var best: Option<Pick> := None;
    for k := 0 to |avail|
      invariant Scan(c, Minutes(avail[k..]), best) == Scan(c, Minutes(avail), None)
    {
      assert Minutes(avail[k..]) == Steps(avail[k].start, avail[k].end) + Minutes(avail[k + 1..]) by {
        assert avail[k..][0] == avail[k] && avail[k..][1..] == avail[k + 1..];
      }
      ScanConcat(c, Steps(avail[k].start, avail[k].end), Minutes(avail[k + 1..]), best);
      var step := ScanInterval(c, avail[k].start, avail[k].end, best);
      if step.Failure? {
        return Failure(step.error);
      }
      best := step.value;
    }
    assert avail[|avail|..] == [];
    return Success(best);
  }

  // ---------------------------------------------------------------------------
  // What the scan finds.

  /** No scanned minute is viable for the event. */
  ghost predicate NoneViable(c: Probe, ms: seq<int>) {
    forall k :: 0 <= k < |ms| ==> !Viable(ms[k], c.end, c.e)
  }

  /** No viable scanned minute scores above `v`. */
  ghost predicate Bounded(c: Probe, ms: seq<int>, v: real)
    requires ProbeReady(c) && !SuitabilityFails(c.schedule, c.e)
  {
    forall k :: 0 <= k < |ms| && Viable(ms[k], c.end, c.e) ==> Score(c, ms[k]) <= v
  }

  /** `p` is the viable minute at index `j` with its score, which is the
      highest score of the scan and reached by no earlier viable minute. */
  ghost predicate FirstBest(c: Probe, ms: seq<int>, j: int, p: Pick)
    requires ProbeReady(c) && !SuitabilityFails(c.schedule, c.e)
  {
    && 0 <= j < |ms|
    && Viable(ms[j], c.end, c.e)
    && p == Pick(ms[j], Score(c, ms[j]))
    && Bounded(c, ms, p.score)
    && forall k :: 0 <= k < j && Viable(ms[k], c.end, c.e) ==> Score(c, ms[k]) < p.score
  }

  /** The scan from a best-so-far either keeps that best, because no viable
      minute beats it, or ends on the first minute of highest score, which
      is strictly higher than the best it started from. */
  ghost predicate ScanOutcome(c: Probe, ms: seq<int>, best: Option<Pick>)
    requires ProbeReady(c) && !SuitabilityFails(c.schedule, c.e)
  {
    var r := Scan(c, ms, best);
    && r.Success?
    && (r.value.None? ==> best.None? && NoneViable(c, ms))
    && (best.None? && NoneViable(c, ms) ==> r.value.None?)
    && (r.value.Some? ==>
          || (r.value == best && Bounded(c, ms, best.value.score))
          || (exists j :: FirstBest(c, ms, j, r.value.value)
                && (best.None? || best.value.score < r.value.value.score)))
  }

  lemma {:induction false} ScanFromBest(c: Probe, ms: seq<int>, best: Option<Pick>)
    requires ProbeReady(c) && !SuitabilityFails(c.schedule, c.e)
    ensures ScanOutcome(c, ms, best)
  {
    if ms != [] {
      if !Viable(ms[0], c.end, c.e) {
        ScanFromBest(c, ms[1..], best);
        ScanSkips(c, ms, best);
      } else {
        ScanFromBest(c, ms[1..], Better(best, ms[0], Score(c, ms[0])));
        ScanScores(c, ms, best);
      }
    }
  }

  /** The step of `ScanFromBest` at a minute that is not viable. */
  lemma ScanSkips(c: Probe, ms: seq<int>, best: Option<Pick>)
    requires ProbeReady(c) && !SuitabilityFails(c.schedule, c.e)
    requires ms != [] && !Viable(ms[0], c.end, c.e)
    requires ScanOutcome(c, ms[1..], best)
    ensures ScanOutcome(c, ms, best)
  {
    var r := Scan(c, ms, best).value;
    assert r == Scan(c, ms[1..], best).value;
    ShiftNoneViable(c, ms);
    if r.Some? {
      if r == best && Bounded(c, ms[1..], best.value.score) {
        ShiftBounded(c, ms, best.value.score);
      } else {
        var j :| FirstBest(c, ms[1..], j, r.value) && (best.None? || best.value.score < r.value.score);
        ShiftFirstBest(c, ms, j, r.value);
      }
    }
  }

  /** A minute that is not viable in front changes nothing the scan is judged by. */
  lemma ShiftNoneViable(c: Probe, ms: seq<int>)
    requires ms != [] && !Viable(ms[0], c.end, c.e)
    ensures NoneViable(c, ms) <==> NoneViable(c, ms[1..])
  {
    assert forall k :: 1 <= k < |ms| ==> ms[k] == ms[1..][k - 1];
  }

  lemma ShiftBounded(c: Probe, ms: seq<int>, v: real)
    requires ProbeReady(c) && !SuitabilityFails(c.schedule, c.e)
    requires ms != [] && !Viable(ms[0], c.end, c.e)
    requires Bounded(c, ms[1..], v)
    ensures Bounded(c, ms, v)
  {
    assert forall k :: 1 <= k < |ms| ==> ms[k] == ms[1..][k - 1];
  }

  lemma ShiftFirstBest(c: Probe, ms: seq<int>, j: int, p: Pick)
    requires ProbeReady(c) && !SuitabilityFails(c.schedule, c.e)
    requires ms != [] && !Viable(ms[0], c.end, c.e)
    requires FirstBest(c, ms[1..], j, p)
    ensures FirstBest(c, ms, j + 1, p)
  {
    assert forall k :: 1 <= k < |ms| ==> ms[k] == ms[1..][k - 1];
    ShiftBounded(c, ms, p.score);
  }

  /** The step of `ScanFromBest` at a viable minute. */
  lemma ScanScores(c: Probe, ms: seq<int>, best: Option<Pick>)
    requires ProbeReady(c) && !SuitabilityFails(c.schedule, c.e)
    requires ms != [] && Viable(ms[0], c.end, c.e)
    requires ScanOutcome(c, ms[1..], Better(best, ms[0], Score(c, ms[0])))
    ensures ScanOutcome(c, ms, best)
  {
    var rest := ms[1..];
    var sc := Score(c, ms[0]);
    var nb := Better(best, ms[0], sc);
    var r := Scan(c, ms, best).value;
    assert r == Scan(c, rest, nb).value;
    if r == nb && Bounded(c, rest, nb.value.score) {
      if nb == best {
        assert sc <= best.value.score;
        HeadBounded(c, ms, best.value.score);
      } else {
        assert nb == Some(Pick(ms[0], sc));
        HeadBounded(c, ms, sc);
        assert FirstBest(c, ms, 0, r.value);
      }
    } else {
      var j :| FirstBest(c, rest, j, r.value) && nb.value.score < r.value.score;
      HeadFirstBest(c, ms, j, r.value);
    }
  }

  /** A viable minute in front that scores no more than `v` keeps the bound. */
  lemma HeadBounded(c: Probe, ms: seq<int>, v: real)
    requires ProbeReady(c) && !SuitabilityFails(c.schedule, c.e)
    requires ms != [] && Score(c, ms[0]) <= v
    requires Bounded(c, ms[1..], v)
    ensures Bounded(c, ms, v)
  {
    assert forall k :: 1 <= k < |ms| ==> ms[k] == ms[1..][k - 1];
  }

  /** A viable minute in front that scores less than the best found after it
      leaves that best first. */
  lemma HeadFirstBest(c: Probe, ms: seq<int>, j: int, p: Pick)
    requires ProbeReady(c) && !SuitabilityFails(c.schedule, c.e)
    requires ms != [] && Score(c, ms[0]) < p.score
    requires FirstBest(c, ms[1..], j, p)
    ensures FirstBest(c, ms, j + 1, p)
  {
    assert forall k :: 1 <= k < |ms| ==> ms[k] == ms[1..][k - 1];
    HeadBounded(c, ms, p.score);
  }

  /** A scan from nothing: it finds nothing exactly when no minute is viable,
      and otherwise the first viable minute of highest suitability. */
  lemma ScanPicksFirstBest(c: Probe, ms: seq<int>)
    requires ProbeReady(c) && !SuitabilityFails(c.schedule, c.e)
    ensures Scan(c, ms, None).Success?
    ensures Scan(c, ms, None).value.None? <==> NoneViable(c, ms)
    ensures Scan(c, ms, None).value.Some? ==> exists j :: FirstBest(c, ms, j, Scan(c, ms, None).value.value)
  {
    ScanFromBest(c, ms, None);
  }

  /** When suitability raises, the scan raises exactly when it reaches a
      viable minute. */
  lemma {:induction false} ScanRaises(c: Probe, ms: seq<int>, best: Option<Pick>)
    requires ProbeReady(c) && SuitabilityFails(c.schedule, c.e)
    ensures Scan(c, ms, best).Failure? <==> !NoneViable(c, ms)
    ensures Scan(c, ms, best).Failure? ==> Scan(c, ms, best).error == "AttributeError"
    ensures Scan(c, ms, best).Success? ==> Scan(c, ms, best).value == best
  {
    if ms != [] {
      ScanRaises(c, ms[1..], best);
      assert forall k :: 1 <= k < |ms| ==> ms[k] == ms[1..][k - 1];
    }
  }

  // ---------------------------------------------------------------------------
  // The greedy loop.

  /** The window `[start, end)` and what the scheduler reads from its
      surroundings: the current time and the local time of day of a minute. */
  datatype Setup = Setup(schedule: Schedule, start: int, end: int, now: int, tod: int -> int)

  /** The lists the loop builds: placed events, events for which no minute
      was found, and the caller's block list as appended to so far. */
  datatype Plan = Plan(scheduled: seq<Event>, unschedulable: seq<Event>, blocks: seq<Block>)

  /** The block a placed event adds: none when it has no duration. */
  function PlacedBlock(e: Event, t: int): (r: seq<Block>)
    ensures e.duration.None? <==> r == []
  {
    if e.duration.Some? then [Block(t, t + e.duration.value)] else []
  }

  /** The probe for the next event, given the events placed so far. */
  function ProbeFor(g: Setup, p: Plan, e: Event): Probe {
    Probe(g.schedule, g.end, g.tod, p.scheduled, e)
  }

  /** The scan for the next event over this iteration's free time. */
  function Turn(g: Setup, p: Plan, e: Event): Result<Option<Pick>>
    requires AllPlaced(p.scheduled)
  {
    Scan(ProbeFor(g, p, e), Minutes(Availability.Availability(g.start, g.end, p.blocks)), None)
  }

  /** The plan after the next event has taken its minute (or none). */
  function Record(p: Plan, e: Event, found: Option<Pick>): (r: Plan)
    requires AllPlaced(p.scheduled)
    ensures AllPlaced(r.scheduled)
  {
    match found
    case None => p.(unschedulable := p.unschedulable + [e.(scheduled := None)])
    case Some(pick) =>
      var placed := e.(scheduled := Some(pick.time));
      assert forall x :: x in p.scheduled + [placed] ==> x in p.scheduled || x == placed;
      Plan(p.scheduled + [placed], p.unschedulable, p.blocks + PlacedBlock(e, pick.time))
  }

  /** The `while len(events) > 0` loop from the plan `p`, popping the front
      of `queue` each time. An exception raised while scoring ends it. */
  function PlanFrom(g: Setup, queue: seq<Event>, p: Plan): Result<Plan>
    requires AllPlaced(p.scheduled)
    decreases |queue|
  {
    if queue == [] then Success(p)
    else
      match Turn(g, p, queue[0])
      case Failure(err) => Failure(err)
      case Success(found) => PlanFrom(g, queue[1..], Record(p, queue[0], found))
  }

  /** One iteration of the loop. */
  lemma PlanFromStep(g: Setup, queue: seq<Event>, p: Plan)
    requires AllPlaced(p.scheduled) && queue != []
    ensures Turn(g, p, queue[0]).Failure? ==> PlanFrom(g, queue, p) == Failure(Turn(g, p, queue[0]).error)
    ensures Turn(g, p, queue[0]).Success?
        ==> PlanFrom(g, queue, p) == PlanFrom(g, queue[1..], Record(p, queue[0], Turn(g, p, queue[0]).value))
  {
  }

  /** The whole of `build_schedule` on the schedule's `events` and the
      caller's `blocks`. */
  function BuildPlan(g: Setup, events: seq<Event>, blocks: seq<Block>): Result<Plan> {
    var f := Freeze(Ordered(events, g.end), 0, g.now, g.schedule.rescheduleAfter);
    PlanFrom(g, f.kept, Plan([], [], blocks + OngoingBlocks(f.frozen)))
  }

  /** What the caller sees: the returned list `scheduled + unschedulable`
      and its block list after the appends. */
  datatype Outcome = Outcome(events: seq<Event>, blocks: seq<Block>)

  function Returned(r: Result<Plan>): Result<Outcome> {
    match r
    case Failure(err) => Failure(err)
    case Success(p) => Success(Outcome(p.scheduled + p.unschedulable, p.blocks))
  }

  /** `build_schedule(schedule, blocks, start, end)`: the sort, the filter of
      ongoing events, then the placement loop. */
  method BuildSchedule(g: Setup, events: seq<Event>, blocks: seq<Block>) returns (r: Result<Outcome>)
    ensures r == Returned(BuildPlan(g, events, blocks))
  {
    var queue, busy := FreezeOngoing(Ordered(events, g.end), blocks, g.now, g.schedule.rescheduleAfter);
    r := PlaceAll(g, queue, busy);
  }

  /** The `while len(events) > 0` loop, starting from empty result lists. */
  method PlaceAll(g: Setup, events: seq<Event>, blocks: seq<Block>) returns (r: Result<Outcome>)
    ensures r == Returned(PlanFrom(g, events, Plan([], [], blocks)))
  {
    ghost var goal := PlanFrom(g, events, Plan([], [], blocks));
    var queue, busy := events, blocks;
    var scheduled: seq<Event>, unschedulable: seq<Event> := [], [];
    while |queue| > 0
      invariant AllPlaced(scheduled)
      invariant PlanFrom(g, queue, Plan(scheduled, unschedulable, busy)) == goal
      decreases |queue|
    {
      PlanFromStep(g, queue, Plan(scheduled, unschedulable, busy));
      var event := queue[0];
      queue := queue[1..];
      var next := PlaceNext(g, event, scheduled, unschedulable, busy);
      if next.Failure? {
        return Failure(next.error);
      }
      scheduled, unschedulable, busy := next.value.scheduled, next.value.unschedulable, next.value.blocks;
    }
    return Success(Outcome(scheduled + unschedulable, busy));
  }

  /** One pass of the loop body for `event`: compute the free time, scan it,
      and either place the event (appending its block) or set it aside. */
  method PlaceNext(g: Setup, event: Event, scheduled: seq<Event>, unschedulable: seq<Event>, blocks: seq<Block>)
    returns (r: Result<Plan>)
    requires AllPlaced(scheduled)
    ensures var p := Plan(scheduled, unschedulable, blocks);
            r == match Turn(g, p, event) case Failure(err) => Failure(err) case Success(found) => Success(Record(p, event, found))
  {
    ghost var p := Plan(scheduled, unschedulable, blocks);
    var availability := FindAvailability(g.start, g.end, blocks);
    var found := ScanAvailability(Probe(g.schedule, g.end, g.tod, scheduled, event), availability);
    assert found == Turn(g, p, event);
    if found.Failure? {
      return Failure(found.error);
    }
    var busy := blocks;
    if found.value.Some? {
      var time := found.value.value.time;
      if event.duration.Some? {
        busy := busy + [Block(time, time + event.duration.value)];
      }
      assert busy == blocks + PlacedBlock(event, time);
      r := Success(Plan(scheduled + [event.(scheduled := Some(time))], unschedulable, busy));
    } else {
      r := Success(Plan(scheduled, unschedulable + [event.(scheduled := None)], busy));
    }
  }

  // ---------------------------------------------------------------------------
  // One turn of the loop.

  /** A minute the turn picks lies in the window, outside every block known at
      that point, the event is viable there, and it is the first scanned
      minute of highest suitability. */
  lemma TurnPlaces(g: Setup, p: Plan, e: Event)
    requires AllPlaced(p.scheduled)
    ensures Turn(g, p, e).Success? && Turn(g, p, e).value.Some? ==>
              var t := Turn(g, p, e).value.value.time;
              && g.start <= t < g.end
              && Viable(t, g.end, e)
              && (forall b :: b in p.blocks ==> !InBlock(b, t))
              && !SuitabilityFails(g.schedule, e)
              && exists j :: FirstBest(ProbeFor(g, p, e), Minutes(Availability.Availability(g.start, g.end, p.blocks)), j, Turn(g, p, e).value.value)
  {
    var c := ProbeFor(g, p, e);
    var avail := Availability.Availability(g.start, g.end, p.blocks);
    var ms := Minutes(avail);
    if SuitabilityFails(g.schedule, e) {
      ScanRaises(c, ms, None);
    } else {
      ScanPicksFirstBest(c, ms);
      var r := Turn(g, p, e);
      if r.value.Some? {
        var j :| FirstBest(c, ms, j, r.value.value);
        var t := ms[j];
        MinutesInside(avail, t);
        var iv :| iv in avail && Contains(iv, t);
        AvailabilityWithinWindow(g.start, g.end, p.blocks);
        AvailabilityTiles(g.start, g.end, p.blocks, t);
      }
    }
  }

  /** Suitability raises only for an event with a start under CONSISTENCY, and
      then such an event is never placed. */
  lemma TurnRaises(g: Setup, p: Plan, e: Event)
    requires AllPlaced(p.scheduled)
    ensures !SuitabilityFails(g.schedule, e) ==> Turn(g, p, e).Success?
    ensures Turn(g, p, e).Failure? ==> Turn(g, p, e).error == "AttributeError"
    ensures SuitabilityFails(g.schedule, e) && Turn(g, p, e).Success? ==> Turn(g, p, e).value.None?
  {
    var c := ProbeFor(g, p, e);
    var ms := Minutes(Availability.Availability(g.start, g.end, p.blocks));
    if SuitabilityFails(g.schedule, e) {
      ScanRaises(c, ms, None);
    } else {
      ScanPicksFirstBest(c, ms);
    }
  }

  /** An event viable at no minute of the window is set aside, start cleared. */
  lemma TurnFindsNothing(g: Setup, p: Plan, e: Event)
    requires AllPlaced(p.scheduled)
    requires forall m :: g.start <= m < g.end ==> !Viable(m, g.end, e)
    ensures Turn(g, p, e) == Success(None)
  {
    var c := ProbeFor(g, p, e);
    var avail := Availability.Availability(g.start, g.end, p.blocks);
    var ms := Minutes(avail);
    AvailabilityWithinWindow(g.start, g.end, p.blocks);
    forall k | 0 <= k < |ms| ensures !Viable(ms[k], c.end, c.e) {
      MinutesInside(avail, ms[k]);
    }
    if SuitabilityFails(g.schedule, e) {
      ScanRaises(c, ms, None);
    } else {
      ScanPicksFirstBest(c, ms);
    }
  }

  /** No minute of the window is viable for a `nobox` event, one longer than
      the window, or one whose inception is not before the window's end. */
  lemma NeverViableInWindow(g: Setup, e: Event, m: int)
    requires NoBox in e.flags || (e.duration.Some? && e.duration.value > g.end - g.start)
          || (e.inception.Some? && e.inception.value >= g.end)
    requires g.start <= m < g.end
    ensures !Viable(m, g.end, e)
  {
  }

  // ---------------------------------------------------------------------------
  // The whole loop.

  /** The events of `s` with their start cleared: the identity of an event
      apart from where the loop puts it. */
  function Unplaced(s: seq<Event>): (r: seq<Event>)
    ensures |r| == |s|
  {
    if s == [] then [] else [s[0].(scheduled := None)] + Unplaced(s[1..])
  }

  /** The blocks the placed events among `s` add, in order. */
  function DurationBlocks(s: seq<Event>): seq<Block> {
    if s == [] then []
    else (if s[0].scheduled.Some? then PlacedBlock(s[0], s[0].scheduled.value) else []) + DurationBlocks(s[1..])
  }

  /** The plan `q` extends `p` by processing `queue`: both lists only grow at
      their ends, every event of the queue lands in exactly one of them in
      queue order, the set-aside ones without a start, and the blocks grow by
      exactly the placed events' blocks. */
  ghost predicate Grows(queue: seq<Event>, p: Plan, q: Plan) {
    && AllPlaced(q.scheduled)
    && |p.scheduled| <= |q.scheduled| && |p.unschedulable| <= |q.unschedulable|
    && q.scheduled[..|p.scheduled|] == p.scheduled
    && q.unschedulable[..|p.unschedulable|] == p.unschedulable
    && Interleaves(Unplaced(queue), Unplaced(q.scheduled[|p.scheduled|..]), Unplaced(q.unschedulable[|p.unschedulable|..]))
    && (forall e :: e in q.unschedulable[|p.unschedulable|..] ==> e.scheduled.None?)
    && q.blocks == p.blocks + DurationBlocks(q.scheduled[|p.scheduled|..])
  }

  lemma UnplacedCons(x: Event, s: seq<Event>)
    ensures Unplaced([x] + s) == [x.(scheduled := None)] + Unplaced(s)
    ensures DurationBlocks([x] + s)
         == (if x.scheduled.Some? then PlacedBlock(x, x.scheduled.value) else []) + DurationBlocks(s)
  {
    assert ([x] + s)[1..] == s;
  }

  lemma GrowsStep(queue: seq<Event>, p: Plan, found: Option<Pick>, q: Plan)
    requires queue != [] && AllPlaced(p.scheduled)
    requires Grows(queue[1..], Record(p, queue[0], found), q)
    ensures Grows(queue, p, q)
  {
    assert queue == [queue[0]] + queue[1..];
    UnplacedCons(queue[0], queue[1..]);
    if found.Some? {
      GrowsPlaced(queue, p, found, q);
    } else {
      GrowsAside(queue, p, q);
    }
  }

  /** The step of `GrowsStep` for a placed event. */
  lemma GrowsPlaced(queue: seq<Event>, p: Plan, found: Option<Pick>, q: Plan)
    requires queue != [] && AllPlaced(p.scheduled) && found.Some?
    requires Unplaced(queue) == [queue[0].(scheduled := None)] + Unplaced(queue[1..])
    requires Grows(queue[1..], Record(p, queue[0], found), q)
    ensures Grows(queue, p, q)
  {
    var t := found.value.time;
    var placed := queue[0].(scheduled := Some(t));
    assert Record(p, queue[0], found) == Plan(p.scheduled + [placed], p.unschedulable, p.blocks + PlacedBlock(queue[0], t));
    var n, u := |p.scheduled|, |p.unschedulable|;
    PrefixStep(q.scheduled, p.scheduled, placed);
    var tail := q.scheduled[n + 1..];
    PlacedSplit(queue[0], queue[1..], tail, Unplaced(q.unschedulable[u..]), t);
    PlacedBlocks(p.blocks, queue[0], t, tail);
  }

  lemma PlacedSplit(x: Event, rest: seq<Event>, tail: seq<Event>, aside: seq<Event>, t: int)
    requires Interleaves(Unplaced(rest), Unplaced(tail), aside)
    ensures Interleaves([x.(scheduled := None)] + Unplaced(rest), Unplaced([x.(scheduled := Some(t))] + tail), aside)
  {
    UnplacedCons(x.(scheduled := Some(t)), tail);
    InterleavesConsLeft(x.(scheduled := None), Unplaced(rest), Unplaced(tail), aside);
  }

  lemma PlacedBlocks(blocks: seq<Block>, x: Event, t: int, tail: seq<Event>)
    ensures blocks + PlacedBlock(x, t) + DurationBlocks(tail)
         == blocks + DurationBlocks([x.(scheduled := Some(t))] + tail)
  {
    UnplacedCons(x.(scheduled := Some(t)), tail);
  }

  /** The step of `GrowsStep` for an event set aside. */
  lemma GrowsAside(queue: seq<Event>, p: Plan, q: Plan)
    requires queue != [] && AllPlaced(p.scheduled)
    requires Unplaced(queue) == [queue[0].(scheduled := None)] + Unplaced(queue[1..])
    requires Grows(queue[1..], Record(p, queue[0], None), q)
    ensures Grows(queue, p, q)
  {
    var aside := queue[0].(scheduled := None);
    var n, u := |p.scheduled|, |p.unschedulable|;
    PrefixStep(q.unschedulable, p.unschedulable, aside);
    UnplacedCons(aside, q.unschedulable[u + 1..]);
    InterleavesConsRight(aside, Unplaced(queue[1..]), Unplaced(q.scheduled[n..]), Unplaced(q.unschedulable[u + 1..]));
    forall x | x in q.unschedulable[u..] ensures x.scheduled.None? {
      if x != aside {
        assert x in q.unschedulable[u + 1..];
      }
    }
  }

  /** What the loop returns grows from its starting plan as `Grows` says. */
  lemma {:induction false} PlanGrows(g: Setup, queue: seq<Event>, p: Plan)
    requires AllPlaced(p.scheduled)
    ensures PlanFrom(g, queue, p).Success? ==> Grows(queue, p, PlanFrom(g, queue, p).value)
    decreases |queue|
  {
    if queue == [] {
      assert p.scheduled[|p.scheduled|..] == [] && p.unschedulable[|p.unschedulable|..] == [];
      assert p.scheduled[..|p.scheduled|] == p.scheduled && p.unschedulable[..|p.unschedulable|] == p.unschedulable;
    } else {
      PlanFromStep(g, queue, p);
      if Turn(g, p, queue[0]).Success? {
        var found := Turn(g, p, queue[0]).value;
        PlanGrows(g, queue[1..], Record(p, queue[0], found));
        if PlanFrom(g, queue, p).Success? {
          GrowsStep(queue, p, found, PlanFrom(g, queue, p).value);
        }
      }
    }
  }

  /** Blocks run forwards. */
  ghost predicate WellFormed(blocks: seq<Block>) {
    forall b :: b in blocks ==> b.start <= b.end
  }

  /** `e` starts inside the window, at a minute where it is viable and which
      none of `blocks` covers. */
  ghost predicate PlacedWell(g: Setup, blocks: seq<Block>, e: Event) {
    && e.scheduled.Some?
    && g.start <= e.scheduled.value < g.end
    && Viable(e.scheduled.value, g.end, e)
    && forall b :: b in blocks ==> !InBlock(b, e.scheduled.value)
  }

  /** Every event the loop places starts inside the window, at a minute where
      it is viable and which no block known before the loop covers. */
  lemma {:induction false} PlanPlacements(g: Setup, queue: seq<Event>, p: Plan)
    requires AllPlaced(p.scheduled)
    ensures PlanFrom(g, queue, p).Success? ==>
              forall k :: |p.scheduled| <= k < |PlanFrom(g, queue, p).value.scheduled| ==>
                PlacedWell(g, p.blocks, PlanFrom(g, queue, p).value.scheduled[k])
    decreases |queue|
  {
    if queue != [] && PlanFrom(g, queue, p).Success? {
      PlanFromStep(g, queue, p);
      var found := Turn(g, p, queue[0]).value;
      var p' := Record(p, queue[0], found);
      PlanPlacements(g, queue[1..], p');
      PlanGrows(g, queue[1..], p');
      TurnPlacedWell(g, p, queue[0]);
      PlacementsStep(g, queue[0], p, found, PlanFrom(g, queue, p).value);
    }
  }

  /** The step of `PlanPlacements`: the event the turn placed, followed by
      the events placed after it. */
  lemma PlacementsStep(g: Setup, e: Event, p: Plan, found: Option<Pick>, q: Plan)
    requires AllPlaced(p.scheduled)
    requires found.Some? ==> PlacedWell(g, p.blocks, e.(scheduled := Some(found.value.time)))
    requires var p' := Record(p, e, found);
             && |p'.scheduled| <= |q.scheduled| && q.scheduled[..|p'.scheduled|] == p'.scheduled
             && forall k :: |p'.scheduled| <= k < |q.scheduled| ==> PlacedWell(g, p'.blocks, q.scheduled[k])
    ensures forall k :: |p.scheduled| <= k < |q.scheduled| ==> PlacedWell(g, p.blocks, q.scheduled[k])
  {
    var p' := Record(p, e, found);
    var n := |p.scheduled|;
    if found.Some? {
      assert p'.scheduled == p.scheduled + [e.(scheduled := Some(found.value.time))];
      assert p'.blocks == p.blocks + PlacedBlock(e, found.value.time);
      assert q.scheduled[n] == q.scheduled[..n + 1][n];
      FewerBlocks(g, p.blocks, p'.blocks, q.scheduled, n + 1);
    } else {
      assert p'.scheduled == p.scheduled && p'.blocks == p.blocks;
    }
  }

  /** Being placed well with respect to some blocks implies it for fewer. */
  lemma FewerBlocks(g: Setup, a: seq<Block>, b: seq<Block>, s: seq<Event>, lo: nat)
    requires forall x :: x in a ==> x in b
    requires forall k :: lo <= k < |s| ==> PlacedWell(g, b, s[k])
    ensures forall k :: lo <= k < |s| ==> PlacedWell(g, a, s[k])
  {
  }

  /** The turn's pick, written into the event, is placed well. */
  lemma TurnPlacedWell(g: Setup, p: Plan, e: Event)
    requires AllPlaced(p.scheduled)
    ensures Turn(g, p, e).Success? && Turn(g, p, e).value.Some? ==>
              PlacedWell(g, p.blocks, e.(scheduled := Some(Turn(g, p, e).value.value.time)))
  {
    TurnPlaces(g, p, e);
  }

  /** The loop raises only under CONSISTENCY, only for a queue holding an
      event that already has a start, and always with `AttributeError`. */
  lemma {:induction false} PlanRaises(g: Setup, queue: seq<Event>, p: Plan)
    requires AllPlaced(p.scheduled)
    ensures PlanFrom(g, queue, p).Failure? ==>
              && g.schedule.behavior == Consistency
              && (exists e :: e in queue && e.scheduled.Some?)
              && PlanFrom(g, queue, p).error == "AttributeError"
    decreases |queue|
  {
    if queue != [] {
      PlanFromStep(g, queue, p);
      TurnRaises(g, p, queue[0]);
      if Turn(g, p, queue[0]).Success? {
        var p' := Record(p, queue[0], Turn(g, p, queue[0]).value);
        PlanRaises(g, queue[1..], p');
        if PlanFrom(g, queue, p).Failure? {
          var e :| e in queue[1..] && e.scheduled.Some?;
          assert e in queue;
        }
      } else {
        assert queue[0] in queue;
      }
    }
  }

  /** An event viable at no minute of the window is set aside and the rest of
      the queue goes on from the same blocks. */
  lemma SetAside(g: Setup, queue: seq<Event>, p: Plan)
    requires AllPlaced(p.scheduled) && queue != []
    requires forall m :: g.start <= m < g.end ==> !Viable(m, g.end, queue[0])
    ensures PlanFrom(g, queue, p)
         == PlanFrom(g, queue[1..], p.(unschedulable := p.unschedulable + [queue[0].(scheduled := None)]))
  {
    TurnFindsNothing(g, p, queue[0]);
    PlanFromStep(g, queue, p);
  }

  // ---------------------------------------------------------------------------
  // The whole of `build_schedule`.

  lemma DistinctCons(x: Event, s: seq<Event>)
    ensures DistinctIds([x] + s) <==> (forall y :: y in s ==> y.id != x.id) && DistinctIds(s)
  {
    var t := [x] + s;
    assert forall k :: 0 <= k < |s| ==> t[k + 1] == s[k];
    if DistinctIds(t) {
      forall y | y in s ensures y.id != x.id {
        var k :| 0 <= k < |s| && s[k] == y;
        assert t[0] == x && t[k + 1] == y;
      }
      forall p, q | 0 <= p < q < |s| ensures s[p].id != s[q].id {
        assert t[p + 1] == s[p] && t[q + 1] == s[q];
      }
    }
    if (forall y :: y in s ==> y.id != x.id) && DistinctIds(s) {
      forall p, q | 0 <= p < q < |t| ensures t[p].id != t[q].id {
        assert t[q] == s[q - 1];
        if p > 0 {
          assert t[p] == s[p - 1];
        } else {
          assert t[q] in s;
        }
      }
    }
  }

  lemma {:induction false} CandidatesDistinct(events: seq<Event>, end: int)
    requires DistinctIds(events)
    ensures DistinctIds(Candidates(events, end))
  {
    if events != [] {
      assert events == [events[0]] + events[1..];
      DistinctCons(events[0], events[1..]);
      CandidatesDistinct(events[1..], end);
      var rest := Candidates(events[1..], end);
      if Open(events[0], end) {
        DistinctCons(events[0], rest);
      } else {
        assert Candidates(events, end) == [] + rest;
      }
    }
  }

  lemma {:induction false} InsertByDistinct(x: Event, s: seq<Event>, key: Event -> real)
    requires DistinctIds(s) && forall y :: y in s ==> y.id != x.id
    ensures DistinctIds(InsertBy(x, s, key))
  {
    if s != [] {
      assert s == [s[0]] + s[1..];
      if key(x) <= key(s[0]) {
        DistinctCons(x, s);
      } else {
        DistinctCons(s[0], s[1..]);
        InsertByDistinct(x, s[1..], key);
        var rest := InsertBy(x, s[1..], key);
        forall y | y in rest ensures y.id != s[0].id {
          assert y in multiset(rest);
          assert s[0] in s;
        }
        DistinctCons(s[0], rest);
      }
    }
  }

  lemma {:induction false} SortByDistinct(s: seq<Event>, key: Event -> real)
    requires DistinctIds(s)
    ensures DistinctIds(SortBy(s, key))
  {
    if s != [] {
      assert s == [s[0]] + s[1..];
      DistinctCons(s[0], s[1..]);
      SortByDistinct(s[1..], key);
      forall y | y in SortBy(s[1..], key) ensures y.id != s[0].id {
        assert y in multiset(SortBy(s[1..], key));
      }
      InsertByDistinct(s[0], SortBy(s[1..], key), key);
    }
  }

  /** The frozen events and the queue the loop works on split the ordered
      candidates between them, and every event of that queue comes out once,
      placed or set aside, in queue order; the blocks grow by the frozen
      events' spans and then the placed events' blocks. */
  lemma BuildPlanShape(g: Setup, events: seq<Event>, blocks: seq<Block>)
    requires DistinctIds(events)
    ensures var f := Freeze(Ordered(events, g.end), 0, g.now, g.schedule.rescheduleAfter);
            && Interleaves(Ordered(events, g.end), f.kept, f.frozen)
            && (BuildPlan(g, events, blocks).Success? ==>
                  var q := BuildPlan(g, events, blocks).value;
                  && AllPlaced(q.scheduled)
                  && Interleaves(Unplaced(f.kept), Unplaced(q.scheduled), Unplaced(q.unschedulable))
                  && (forall e :: e in q.unschedulable ==> e.scheduled.None?)
                  && q.blocks == blocks + OngoingBlocks(f.frozen) + DurationBlocks(q.scheduled))
  {
    var o := Ordered(events, g.end);
    var f := Freeze(o, 0, g.now, g.schedule.rescheduleAfter);
    CandidatesDistinct(events, g.end);
    SortByDistinct(Candidates(events, g.end), Urgency(g.end));
    FreezeSplits(o, 0, g.now, g.schedule.rescheduleAfter);
    assert o[0..] == o && f.kept[0..] == f.kept;
    var p := Plan([], [], blocks + OngoingBlocks(f.frozen));
    PlanGrows(g, f.kept, p);
    if BuildPlan(g, events, blocks).Success? {
      var q := BuildPlan(g, events, blocks).value;
      assert q.scheduled[0..] == q.scheduled && q.unschedulable[0..] == q.unschedulable;
    }
  }

  /** The queue the loop works on, left after freezing, is still in
      descending priority at the window's end: freezing only removes events
      from the ordered candidates. */
  lemma {:induction false} KeptByPriority(events: seq<Event>, end: int, now: int, rescheduleAfter: int)
    requires DistinctIds(events)
    ensures var kept := Freeze(Ordered(events, end), 0, now, rescheduleAfter).kept;
            forall i, j :: 0 <= i < j < |kept| ==> Priority(kept[i], end) >= Priority(kept[j], end)
  {
    var o := Ordered(events, end);
    var f := Freeze(o, 0, now, rescheduleAfter);
    CandidatesDistinct(events, end);
    SortByDistinct(Candidates(events, end), Urgency(end));
    FreezeSplits(o, 0, now, rescheduleAfter);
    assert o[0..] == o && f.kept[0..] == f.kept;
    SortBySorted(Candidates(events, end), Urgency(end));
    InterleavesSorted(o, f.kept, f.frozen, Urgency(end));
    forall i, j | 0 <= i < j < |f.kept| ensures Priority(f.kept[i], end) >= Priority(f.kept[j], end) {
      assert Urgency(end)(f.kept[i]) <= Urgency(end)(f.kept[j]);
    }
  }

  /** The frozen events' spans run forwards when no duration is negative. */
  lemma OngoingBlocksWellFormed(s: seq<Event>)
    requires forall e :: e in s ==> e.scheduled.Some? && ForwardDuration(e)
    ensures WellFormed(OngoingBlocks(s))
  {
    if s != [] {
      OngoingBlocksWellFormed(s[1..]);
    }
  }

  /** Every placed event starts inside the window, where it is viable, and no
      caller block and no frozen event's span covers its start. */
  lemma BuildPlanPlacements(g: Setup, events: seq<Event>, blocks: seq<Block>)
    ensures var f := Freeze(Ordered(events, g.end), 0, g.now, g.schedule.rescheduleAfter);
            BuildPlan(g, events, blocks).Success? ==>
              forall e :: e in BuildPlan(g, events, blocks).value.scheduled ==>
                PlacedWell(g, blocks + OngoingBlocks(f.frozen), e)
  {
    var f := Freeze(Ordered(events, g.end), 0, g.now, g.schedule.rescheduleAfter);
    var p := Plan([], [], blocks + OngoingBlocks(f.frozen));
    PlanPlacements(g, f.kept, p);
  }

  /** `build_schedule` raises only under CONSISTENCY, and only when some event
      it is about to place already has a start. */
  lemma BuildPlanRaises(g: Setup, events: seq<Event>, blocks: seq<Block>)
    ensures BuildPlan(g, events, blocks).Failure? ==>
              && g.schedule.behavior == Consistency
              && BuildPlan(g, events, blocks).error == "AttributeError"
              && exists e :: e in Freeze(Ordered(events, g.end), 0, g.now, g.schedule.rescheduleAfter).kept && e.scheduled.Some?
    ensures g.schedule.behavior == Efficiency ==> BuildPlan(g, events, blocks).Success?
  {
    var f := Freeze(Ordered(events, g.end), 0, g.now, g.schedule.rescheduleAfter);
    PlanRaises(g, f.kept, Plan([], [], blocks + OngoingBlocks(f.frozen)));
  }

  /** The free time of the example below: the half hour before the block. */
  lemma GapBeforeBlock()
    ensures Minutes(Availability.Availability(0, 7200, [Block(1800, 7200)])) == [0] + Steps(60, 1800)
  {
    AvailabilityOneBlock(0, 7200, Block(1800, 7200));
    assert Minutes([Interval(0, 1800)]) == Steps(0, 1800) + Minutes([]);
  }

  /** The example below: an hour-long event, a two-hour window and a busy
      block over all but its first half hour. */
  const LongEvent := Event(1, None, None, Some(3600), None, false, {}, {})
  const TwoHours := Setup(Schedule(Efficiency, 0), 0, 7200, 0, m => 0)
  const LateBlock := Block(1800, 7200)

  /** The event's turn picks the first minute of the gap. */
  lemma LongEventTurn()
    ensures Turn(TwoHours, Plan([], [], [LateBlock]), LongEvent) == Success(Some(Pick(0, 0.0)))
  {
    var e, g, p := LongEvent, TwoHours, Plan([], [], [LateBlock]);
    var c := ProbeFor(g, p, e);
    GapBeforeBlock();
    assert DayParts(e.flags) == [];
    forall m ensures Score(c, m) == 0.0 {
      SuitabilityNeutral(g.schedule, m, g.tod(m), [], e);
    }
    ScanStep(c, 0, Steps(60, 1800), None);
    ScanKeepsUnbeaten(c, Steps(60, 1800), Some(Pick(0, 0.0)));
  }

  /** Viability is judged against the end of the window rather than the end
      of the free interval, so an hour-long event is placed at the start of a
      half-hour gap and runs into the busy block after it. */
  lemma PlacedOverBusyBlock()
    ensures PlanFrom(TwoHours, [LongEvent], Plan([], [], [LateBlock]))
         == Success(Plan([LongEvent.(scheduled := Some(0))], [], [LateBlock, Block(0, 3600)]))
    ensures InBlock(LateBlock, 1800) && InBlock(Block(0, 3600), 1800)
  {
    var p := Plan([], [], [LateBlock]);
    LongEventTurn();
    PlanFromStep(TwoHours, [LongEvent], p);
    assert [LongEvent][1..] == [];
    assert PlacedBlock(LongEvent, 0) == [Block(0, 3600)];
    var q := Record(p, LongEvent, Some(Pick(0, 0.0)));
    assert q == Plan([LongEvent.(scheduled := Some(0))], [], [LateBlock, Block(0, 3600)]);
  }

  /** A best that no viable minute beats is kept to the end of the scan:
      ties never move the pick. */
  lemma ScanKeepsUnbeaten(c: Probe, ms: seq<int>, best: Option<Pick>)
    requires ProbeReady(c) && !SuitabilityFails(c.schedule, c.e)
    requires best.Some? && Bounded(c, ms, best.value.score)
    ensures Scan(c, ms, best) == Success(best)
  {
    ScanFromBest(c, ms, best);
  }
}
