/** The availability calculator: subtracts busy blocks from a window
    `[start, end)` and returns the free `(start, end)` pairs. The working list
    is changed while it is being iterated, exactly as a Python `for` loop over
    a list sees it: the iterator holds an index, `remove` shifts later
    elements left (so the one after a removed element is skipped), and
    appended elements are still visited. */
module Availability {
  import opened Lists
  import opened Models

  /** A free `(start, end)` pair, half-open. */
  datatype Interval = Interval(start: int, end: int)

  /** The overlap test of a block against a free pair. */
  predicate Overlaps(b: Block, iv: Interval) {
    !(b.start >= iv.end || b.end <= iv.start)
  }

  predicate Contains(iv: Interval, t: int) { iv.start <= t < iv.end }

  predicate InBlock(b: Block, t: int) { b.start <= t < b.end }

  /** For a non-empty block and pair, the overlap test holds exactly when
      some second lies in both. */
  lemma OverlapsShared(b: Block, iv: Interval)
    requires b.start < b.end && iv.start < iv.end
    ensures Overlaps(b, iv) <==> exists t :: InBlock(b, t) && Contains(iv, t)
  {
    if Overlaps(b, iv) {
      var t := if b.start < iv.start then iv.start else b.start;
      assert InBlock(b, t) && Contains(iv, t);
    }
  }

  predicate Disjoint(x: Interval, y: Interval) { x.end <= y.start || y.end <= x.start }

  /** `x` lies inside `y`. */
  predicate Inside(x: Interval, y: Interval) { y.start <= x.start && x.end <= y.end }

  /** What the four-way case split appends in place of an overlapped pair. */
  function Pieces(b: Block, iv: Interval): (r: seq<Interval>)
    ensures forall p :: p in r ==> !Overlaps(b, p)
    ensures Overlaps(b, iv) ==> forall p :: p in r ==> Inside(p, iv) && p.start < p.end
    ensures b.start <= b.end && |r| == 2 ==> Disjoint(r[0], r[1])
    ensures forall p :: p in r ==> p.end == b.start || p.end == iv.end
  {
    if iv.start < b.start && iv.end <= b.end then [Interval(iv.start, b.start)]
    else if iv.start < b.start && iv.end > b.end then [Interval(iv.start, b.start), Interval(b.end, iv.end)]
    else if iv.start >= b.start && iv.end > b.end then [Interval(b.end, iv.end)]
    else []
  }

  /** The pieces keep every instant of the pair that the block does not cover. */
  lemma PiecesKeepFreeTime(b: Block, iv: Interval, t: int)
    requires Contains(iv, t) && !InBlock(b, t)
    ensures exists p :: p in Pieces(b, iv) && Contains(p, t)
  {
    var r := Pieces(b, iv);
    if t < b.start {
      assert Contains(r[0], t);
    } else {
      assert Contains(r[|r| - 1], t);
    }
  }

  /** How many pairs of `s` the block overlaps. */
  function CountOverlapping(s: seq<Interval>, b: Block): nat {
    if s == [] then 0 else (if Overlaps(b, s[0]) then 1 else 0) + CountOverlapping(s[1..], b)
  }

  lemma {:induction false} CountOverlappingConcat(s: seq<Interval>, t: seq<Interval>, b: Block)
    ensures CountOverlapping(s + t, b) == CountOverlapping(s, b) + CountOverlapping(t, b)
  {
    if s == [] {
      assert s + t == t;
    } else {
      assert (s + t)[0] == s[0];
      assert (s + t)[1..] == s[1..] + t;
      CountOverlappingConcat(s[1..], t, b);
    }
  }

  lemma {:induction false} CountOverlappingRemove(s: seq<Interval>, x: Interval, b: Block)
    requires x in s && Overlaps(b, x)
    ensures CountOverlapping(RemoveFirst(s, x), b) == CountOverlapping(s, b) - 1
  {
    if s[0] != x {
      assert x in s[1..];
      CountOverlappingRemove(s[1..], x, b);
      assert RemoveFirst(s, x) == [s[0]] + RemoveFirst(s[1..], x);
      assert ([s[0]] + RemoveFirst(s[1..], x))[1..] == RemoveFirst(s[1..], x);
    }
  }

  lemma {:induction false} CountOverlappingNone(s: seq<Interval>, b: Block)
    requires forall p :: p in s ==> !Overlaps(b, p)
    ensures CountOverlapping(s, b) == 0
  {
    if s != [] {
      assert s[0] in s;
      CountOverlappingNone(s[1..], b);
    }
  }

  /** Replacing an overlapped pair by its pieces overlaps the block one time less. */
  lemma ReplaceLowersCount(s: seq<Interval>, b: Block, i: nat)
    requires i < |s| && Overlaps(b, s[i])
    ensures CountOverlapping(RemoveFirst(s, s[i]) + Pieces(b, s[i]), b) < CountOverlapping(s, b)
  {
    CountOverlappingConcat(RemoveFirst(s, s[i]), Pieces(b, s[i]), b);
    CountOverlappingRemove(s, s[i], b);
    CountOverlappingNone(Pieces(b, s[i]), b);
  }

  /** The inner `for` loop over `available` for one block, from iterator
      index `i`: the pair at `i` is visited, and when the block overlaps it,
      it is removed (shifting the rest left) and its pieces are appended. */
  function Sweep(s: seq<Interval>, b: Block, i: nat): seq<Interval>
    decreases CountOverlapping(s, b), |s| - i
  {
    if i >= |s| then s
    else if Overlaps(b, s[i]) then
      ReplaceLowersCount(s, b, i);
      Sweep(RemoveFirst(s, s[i]) + Pieces(b, s[i]), b, i + 1)
    else Sweep(s, b, i + 1)
  }

  /** The outer loop: one sweep per block, in the given order. */
  function SweepAll(s: seq<Interval>, bs: seq<Block>): seq<Interval>
    decreases |bs|
  {
    if bs == [] then s else SweepAll(Sweep(s, bs[0], 0), bs[1..])
  }

  function StartKey(b: Block): real { b.start as real }

  /** `find_availability(start, end, blocks)`. */
  function Availability(start: int, end: int, blocks: seq<Block>): seq<Interval> {
    SweepAll([Interval(start, end)], SortBy(blocks, StartKey))
  }

  method FindAvailability(start: int, end: int, blocks: seq<Block>) returns (available: seq<Interval>)
    ensures available == Availability(start, end, blocks)
    ensures forall iv :: iv in available ==> start <= iv.start && iv.end <= end
    ensures start < end ==> forall iv :: iv in available ==> iv.start < iv.end
  {
    var sorted := SortBy(blocks, StartKey);
    available := [Interval(start, end)];
    for k := 0 to |sorted|
      invariant SweepAll(available, sorted[k..]) == Availability(start, end, blocks)
    {
      var block := sorted[k];
      ghost var before := available;
      var i := 0;
      while i < |available|
        invariant Sweep(available, block, i) == Sweep(before, block, 0)
        decreases CountOverlapping(available, block), |available| - i
      {
        var iv := available[i];
        i := i + 1;
        if Overlaps(block, iv) {
          ReplaceLowersCount(available, block, i - 1);
          ghost var visited := available;
          available := RemoveFirst(available, iv);
          if iv.start < block.start && iv.end <= block.end {
            available := available + [Interval(iv.start, block.start)];
          } else if iv.start < block.start && iv.end > block.end {
            available := available + [Interval(iv.start, block.start)];
            available := available + [Interval(block.end, iv.end)];
          } else if iv.start >= block.start && iv.end > block.end {
            available := available + [Interval(block.end, iv.end)];
          } else {
            // the block covers the whole pair
          }
          assert available == RemoveFirst(visited, iv) + Pieces(block, iv);
        }
      }
      assert sorted[k..][1..] == sorted[k + 1..];
    }
    AvailabilityWithinWindow(start, end, blocks);
  }

  // ---------------------------------------------------------------------------
  // Properties that hold whatever the order and shape of the blocks.

  ghost predicate AllWithin(s: seq<Interval>, lo: int, hi: int) {
    forall iv :: iv in s ==> lo <= iv.start && iv.end <= hi
  }

  ghost predicate AllNonEmpty(s: seq<Interval>) {
    forall iv :: iv in s ==> iv.start < iv.end
  }

  ghost predicate Covers(s: seq<Interval>, t: int) {
    exists iv :: iv in s && Contains(iv, t)
  }

  lemma {:induction false} SweepWithin(s: seq<Interval>, b: Block, i: nat, lo: int, hi: int)
    requires AllWithin(s, lo, hi)
    ensures AllWithin(Sweep(s, b, i), lo, hi)
    ensures AllNonEmpty(s) ==> AllNonEmpty(Sweep(s, b, i))
    decreases CountOverlapping(s, b), |s| - i
  {
    if i < |s| {
      if Overlaps(b, s[i]) {
        ReplaceLowersCount(s, b, i);
        var s' := RemoveFirst(s, s[i]) + Pieces(b, s[i]);
        RemoveFirstMultiset(s, s[i]);
        forall iv | iv in s' ensures lo <= iv.start && iv.end <= hi && (AllNonEmpty(s) ==> iv.start < iv.end) {
          if iv in RemoveFirst(s, s[i]) {
            assert iv in multiset(RemoveFirst(s, s[i]));
          }
        }
        SweepWithin(s', b, i + 1, lo, hi);
      } else {
        SweepWithin(s, b, i + 1, lo, hi);
      }
    }
  }

  /** Replacing one pair by its pieces keeps every instant the block does
      not cover. */
  lemma ReplaceKeepsFreeTime(s: seq<Interval>, b: Block, x: Interval, t: int)
    requires x in s && Covers(s, t) && !InBlock(b, t)
    ensures Covers(RemoveFirst(s, x) + Pieces(b, x), t)
  {
    RemoveFirstMultiset(s, x);
    var iv :| iv in s && Contains(iv, t);
    if iv == x {
      PiecesKeepFreeTime(b, x, t);
    } else {
      assert iv in multiset(RemoveFirst(s, x));
    }
  }

  lemma {:induction false} SweepKeepsFreeTime(s: seq<Interval>, b: Block, i: nat, t: int)
    requires Covers(s, t) && !InBlock(b, t)
    ensures Covers(Sweep(s, b, i), t)
    decreases CountOverlapping(s, b), |s| - i
  {
    if i < |s| {
      if Overlaps(b, s[i]) {
        ReplaceLowersCount(s, b, i);
        var x := s[i];
        var s' := RemoveFirst(s, x) + Pieces(b, x);
        ReplaceKeepsFreeTime(s, b, x, t);
        SweepKeepsFreeTime(s', b, i + 1, t);
      } else {
        SweepKeepsFreeTime(s, b, i + 1, t);
      }
    }
  }

  lemma {:induction false} SweepAllWithin(s: seq<Interval>, bs: seq<Block>, lo: int, hi: int)
    requires AllWithin(s, lo, hi)
    ensures AllWithin(SweepAll(s, bs), lo, hi)
    ensures AllNonEmpty(s) ==> AllNonEmpty(SweepAll(s, bs))
    decreases |bs|
  {
    if bs != [] {
      SweepWithin(s, bs[0], 0, lo, hi);
      SweepAllWithin(Sweep(s, bs[0], 0), bs[1..], lo, hi);
    }
  }

  lemma {:induction false} SweepAllKeepsFreeTime(s: seq<Interval>, bs: seq<Block>, t: int)
    requires Covers(s, t)
    requires forall b :: b in bs ==> !InBlock(b, t)
    ensures Covers(SweepAll(s, bs), t)
    decreases |bs|
  {
    if bs != [] {
      SweepKeepsFreeTime(s, bs[0], 0, t);
      SweepAllKeepsFreeTime(Sweep(s, bs[0], 0), bs[1..], t);
    }
  }

  /** Every returned pair lies in the window, and is non-empty when the window is. */
  lemma AvailabilityWithinWindow(start: int, end: int, blocks: seq<Block>)
    ensures AllWithin(Availability(start, end, blocks), start, end)
    ensures start < end ==> AllNonEmpty(Availability(start, end, blocks))
  {
    SweepAllWithin([Interval(start, end)], SortBy(blocks, StartKey), start, end);
  }

  /** Free time is never lost: an instant of the window outside every block
      lies in some returned pair. */
  lemma AvailabilityKeepsFreeTime(start: int, end: int, blocks: seq<Block>, t: int)
    requires start <= t < end
    requires forall b :: b in blocks ==> !InBlock(b, t)
    ensures exists iv :: iv in Availability(start, end, blocks) && Contains(iv, t)
  {
    var sorted := SortBy(blocks, StartKey);
    forall b | b in sorted ensures !InBlock(b, t) {
      assert b in multiset(sorted);
    }
    assert Contains(Interval(start, end), t);
    SweepAllKeepsFreeTime([Interval(start, end)], sorted, t);
  }

  // ---------------------------------------------------------------------------
  // The iteration over a list that is being changed.

  /** A block that overlaps none of the pairs from index `i` on leaves the
      list unchanged. */
  lemma {:induction false} SweepUnchanged(s: seq<Interval>, b: Block, i: nat)
    requires forall p :: i <= p < |s| ==> !Overlaps(b, s[p])
    ensures Sweep(s, b, i) == s
    decreases |s| - i
  {
    if i < |s| {
      SweepUnchanged(s, b, i + 1);
    }
  }

  lemma {:induction false} SweepSkips(s: seq<Interval>, b: Block, i: nat, j: nat)
    requires i <= j <= |s|
    requires forall p :: i <= p < j ==> !Overlaps(b, s[p])
    ensures Sweep(s, b, i) == Sweep(s, b, j)
    decreases j - i
  {
    if i < j {
      SweepSkips(s, b, i + 1, j);
    }
  }

  /** The element after a removed one is skipped: here the second pair
      overlaps the block too and survives, because removing the first shifts
      it into the slot the iterator has already passed. */
  lemma SkipAfterRemove()
    ensures Sweep([Interval(0, 10), Interval(20, 30)], Block(5, 25), 0)
         == [Interval(20, 30), Interval(0, 5)]
    ensures Overlaps(Block(5, 25), Interval(20, 30))
  {
    var s := [Interval(0, 10), Interval(20, 30)];
    var b := Block(5, 25);
    assert RemoveFirst(s, s[0]) == [Interval(20, 30)];
    assert Pieces(b, s[0]) == [Interval(0, 5)];
    var s' := [Interval(20, 30), Interval(0, 5)];
    assert Sweep(s, b, 0) == Sweep(s', b, 1);
    SweepUnchanged(s', b, 1);
  }

  /** Cutting index `j` out of `s`: where the remaining elements come from. */
  lemma {:induction false} CutIndex(s: seq<Interval>, j: nat, p: nat)
    requires j < |s| && p < |s| - 1
    ensures (s[..j] + s[j + 1..])[p] == s[if p < j then p else p + 1]
  {
  }

  /** When the block overlaps exactly the pair at `j`, one sweep replaces that
      pair by its pieces at the end of the list; the skip has no effect. */
  lemma {:induction false} SweepSingle(s: seq<Interval>, b: Block, j: nat)
    requires j < |s| && Overlaps(b, s[j])
    requires forall p :: 0 <= p < |s| && p != j ==> !Overlaps(b, s[p])
    ensures Sweep(s, b, 0) == s[..j] + s[j + 1..] + Pieces(b, s[j])
  {
    SweepSkips(s, b, 0, j);
    RemoveFirstAt(s, j);
    var s' := s[..j] + s[j + 1..] + Pieces(b, s[j]);
    assert Sweep(s, b, j) == Sweep(s', b, j + 1);
    forall p | j + 1 <= p < |s'| ensures !Overlaps(b, s'[p]) {
      if p < |s| - 1 {
        CutIndex(s, j, p);
        assert s'[p] == (s[..j] + s[j + 1..])[p];
      } else {
        assert s'[p] == Pieces(b, s[j])[p - (|s| - 1)];
      }
    }
    SweepUnchanged(s', b, j + 1);
  }

  // ---------------------------------------------------------------------------
  // With the blocks sorted by start, as `find_availability` sorts them, each
  // block overlaps at most one pair: every pair ends at the window end or at
  // the start of a block already swept.

  ghost predicate PairwiseDisjoint(s: seq<Interval>) {
    forall p, q :: 0 <= p < |s| && 0 <= q < |s| && p != q ==> Disjoint(s[p], s[q])
  }

  ghost predicate Avoids(s: seq<Interval>, bs: seq<Block>) {
    forall iv, b :: iv in s && b in bs ==> !Overlaps(b, iv)
  }

  ghost predicate EndsBounded(s: seq<Interval>, hi: int, lim: int) {
    forall iv :: iv in s ==> iv.end == hi || iv.end <= lim
  }

  ghost predicate Tidy(s: seq<Interval>, lo: int, hi: int) {
    AllWithin(s, lo, hi) && AllNonEmpty(s) && PairwiseDisjoint(s)
  }

  lemma {:induction false} DisjointInside(x: Interval, y: Interval, z: Interval)
    requires Disjoint(x, y) && Inside(z, y)
    ensures Disjoint(x, z) && Disjoint(z, x)
  {
  }

  lemma {:induction false} AvoidsInside(b: Block, z: Interval, y: Interval)
    requires !Overlaps(b, y) && Inside(z, y)
    ensures !Overlaps(b, z)
  {
  }

  /** A block no earlier than every swept block overlaps at most one pair:
      an overlapped pair ends at the window end, and two disjoint pairs
      cannot both do so. */
  lemma {:induction false} UniqueOverlap(s: seq<Interval>, b: Block, lo: int, hi: int, lim: int, j: nat, p: nat)
    requires Tidy(s, lo, hi) && EndsBounded(s, hi, lim) && lim <= b.start
    requires j < |s| && p < |s| && p != j && Overlaps(b, s[j])
    ensures !Overlaps(b, s[p])
  {
    assert s[p] in s && s[j] in s;
    assert s[j].end == hi;
    assert Disjoint(s[p], s[j]);
    assert s[p].end <= s[j].start;
  }

  /** Replacing the pair at `j` of a disjoint list by disjoint pieces inside
      it keeps the list disjoint. */
  lemma ReplaceDisjoint(s: seq<Interval>, j: nat, pieces: seq<Interval>)
    requires j < |s| && PairwiseDisjoint(s) && PairwiseDisjoint(pieces)
    requires forall x :: x in pieces ==> Inside(x, s[j])
    ensures PairwiseDisjoint(s[..j] + s[j + 1..] + pieces)
  {
    var rest := s[..j] + s[j + 1..];
    var r := rest + pieces;
    forall p, q | 0 <= p < |r| && 0 <= q < |r| && p != q ensures Disjoint(r[p], r[q]) {
      var mp := if p < j then p else p + 1;
      var mq := if q < j then q else q + 1;
      if p < |rest| && q < |rest| {
        CutIndex(s, j, p);
        CutIndex(s, j, q);
        assert r[p] == s[mp] && r[q] == s[mq];
      } else if p < |rest| {
        CutIndex(s, j, p);
        assert r[p] == s[mp] && mp != j;
        assert r[q] == pieces[q - |rest|];
        DisjointInside(r[p], s[j], r[q]);
      } else if q < |rest| {
        CutIndex(s, j, q);
        assert r[q] == s[mq] && mq != j;
        assert r[p] == pieces[p - |rest|];
        DisjointInside(r[q], s[j], r[p]);
      } else {
        assert r[p] == pieces[p - |rest|] && r[q] == pieces[q - |rest|];
      }
    }
  }

  /** The sweep of a block that overlaps the pair at `j`. */
  lemma {:induction false} SweepSortedOverlap(s: seq<Interval>, b: Block, done: seq<Block>, lo: int, hi: int, lim: int, j: nat)
    requires Tidy(s, lo, hi) && EndsBounded(s, hi, lim) && Avoids(s, done)
    requires lim <= b.start && b.start <= b.end
    requires j < |s| && Overlaps(b, s[j])
    ensures Tidy(Sweep(s, b, 0), lo, hi)
    ensures EndsBounded(Sweep(s, b, 0), hi, b.start)
    ensures Avoids(Sweep(s, b, 0), done + [b])
  {
    forall p | 0 <= p < |s| && p != j ensures !Overlaps(b, s[p]) {
      UniqueOverlap(s, b, lo, hi, lim, j, p);
    }
    SweepSingle(s, b, j);
    var rest := s[..j] + s[j + 1..];
    var pieces := Pieces(b, s[j]);
    var r := rest + pieces;
    assert s[j] in s;
    assert s[j].end == hi;
    forall iv | iv in rest ensures iv in s && iv != s[j] && !Overlaps(b, iv) {
      var p :| 0 <= p < |rest| && rest[p] == iv;
      CutIndex(s, j, p);
    }
    assert AllWithin(r, lo, hi) && AllNonEmpty(r);
    assert PairwiseDisjoint(pieces) by {
      assert |pieces| == 2 ==> Disjoint(pieces[0], pieces[1]);
    }
    ReplaceDisjoint(s, j, pieces);
    forall iv, bb | iv in r && bb in done + [b] ensures !Overlaps(bb, iv) {
      if iv in pieces && bb in done {
        AvoidsInside(bb, iv, s[j]);
      }
    }
  }

  /** One sweep of a block no earlier than every swept block keeps the list tidy. */
  lemma {:induction false} SweepSortedStep(s: seq<Interval>, b: Block, done: seq<Block>, lo: int, hi: int, lim: int)
    requires Tidy(s, lo, hi) && EndsBounded(s, hi, lim) && Avoids(s, done)
    requires lim <= b.start && b.start <= b.end
    ensures Tidy(Sweep(s, b, 0), lo, hi)
    ensures EndsBounded(Sweep(s, b, 0), hi, b.start)
    ensures Avoids(Sweep(s, b, 0), done + [b])
  {
    if exists j :: 0 <= j < |s| && Overlaps(b, s[j]) {
      var j :| 0 <= j < |s| && Overlaps(b, s[j]);
      SweepSortedOverlap(s, b, done, lo, hi, lim, j);
    } else {
      SweepUnchanged(s, b, 0);
    }
  }

  lemma {:induction false} SweepAllSorted(s: seq<Interval>, bs: seq<Block>, done: seq<Block>, lo: int, hi: int, lim: int)
    requires Tidy(s, lo, hi) && EndsBounded(s, hi, lim) && Avoids(s, done)
    requires SortedBy(bs, StartKey)
    requires forall b :: b in bs ==> b.start <= b.end
    requires bs != [] ==> lim <= bs[0].start
    ensures Tidy(SweepAll(s, bs), lo, hi) && Avoids(SweepAll(s, bs), done + bs)
    decreases |bs|
  {
    if bs == [] {
      assert done + bs == done;
    } else {
      var b := bs[0];
      assert b in bs;
      SweepSortedStep(s, b, done, lo, hi, lim);
      if |bs| > 1 {
        assert StartKey(bs[0]) <= StartKey(bs[1]);
      }
      assert SortedBy(bs[1..], StartKey) by {
        forall i, j | 0 <= i < j < |bs[1..]| ensures StartKey(bs[1..][i]) <= StartKey(bs[1..][j]) {
          assert bs[1..][i] == bs[i + 1] && bs[1..][j] == bs[j + 1];
        }
      }
      SweepAllSorted(Sweep(s, b, 0), bs[1..], done + [b], lo, hi, b.start);
      assert done + [b] + bs[1..] == done + bs;
    }
  }

  // ---------------------------------------------------------------------------
  // Missing every block needs no shape of the blocks at all: while the sweep
  // runs, at most one pair ends at the window end, every other pair ends no
  // later than the start of the block just swept, and only a pair ending at
  // the window end can overlap the next block.

  /** At most one pair ends at `hi`. */
  ghost predicate OneAtEnd(s: seq<Interval>, hi: int) {
    forall p, q :: 0 <= p < |s| && 0 <= q < |s| && s[p].end == hi && s[q].end == hi ==> p == q
  }

  /** The sweep of a block that overlaps the pair at `j`, for any block. */
  lemma {:induction false} SweepMissesOverlap(s: seq<Interval>, b: Block, done: seq<Block>, hi: int, lim: int, j: nat)
    requires OneAtEnd(s, hi) && EndsBounded(s, hi, lim) && Avoids(s, done)
    requires lim <= b.start
    requires j < |s| && Overlaps(b, s[j])
    ensures OneAtEnd(Sweep(s, b, 0), hi)
    ensures EndsBounded(Sweep(s, b, 0), hi, b.start)
    ensures Avoids(Sweep(s, b, 0), done + [b])
  {
    assert s[j] in s;
    assert s[j].end == hi;
    forall p | 0 <= p < |s| && p != j ensures !Overlaps(b, s[p]) && s[p].end != hi {
      assert s[p] in s;
    }
    SweepSingle(s, b, j);
    var rest := s[..j] + s[j + 1..];
    var pieces := Pieces(b, s[j]);
    var r := rest + pieces;
    forall iv | iv in rest ensures iv in s && iv.end != hi && !Overlaps(b, iv) {
      var p :| 0 <= p < |rest| && rest[p] == iv;
      CutIndex(s, j, p);
    }
    assert forall p :: 0 <= p < |pieces| - 1 ==> pieces[p].end == b.start < hi;
    forall p, q | 0 <= p < |r| && 0 <= q < |r| && r[p].end == hi && r[q].end == hi ensures p == q {
      assert r[p] !in rest && r[q] !in rest;
      assert r[p] == pieces[p - |rest|] && r[q] == pieces[q - |rest|];
    }
    forall iv, bb | iv in r && bb in done + [b] ensures !Overlaps(bb, iv) {
      if iv in pieces && bb in done {
        AvoidsInside(bb, iv, s[j]);
      }
    }
  }

  /** One sweep of any block no earlier than every swept block keeps the
      working list clear of every block swept so far. */
  lemma {:induction false} SweepMissesStep(s: seq<Interval>, b: Block, done: seq<Block>, hi: int, lim: int)
    requires OneAtEnd(s, hi) && EndsBounded(s, hi, lim) && Avoids(s, done)
    requires lim <= b.start
    ensures OneAtEnd(Sweep(s, b, 0), hi)
    ensures EndsBounded(Sweep(s, b, 0), hi, b.start)
    ensures Avoids(Sweep(s, b, 0), done + [b])
  {
    if exists j :: 0 <= j < |s| && Overlaps(b, s[j]) {
      var j :| 0 <= j < |s| && Overlaps(b, s[j]);
      SweepMissesOverlap(s, b, done, hi, lim, j);
    } else {
      SweepUnchanged(s, b, 0);
    }
  }

  lemma {:induction false} SweepAllMisses(s: seq<Interval>, bs: seq<Block>, done: seq<Block>, hi: int, lim: int)
    requires OneAtEnd(s, hi) && EndsBounded(s, hi, lim) && Avoids(s, done)
    requires SortedBy(bs, StartKey)
    requires bs != [] ==> lim <= bs[0].start
    ensures Avoids(SweepAll(s, bs), done + bs)
    decreases |bs|
  {
    if bs == [] {
      assert done + bs == done;
    } else {
      var b := bs[0];
      SweepMissesStep(s, b, done, hi, lim);
      if |bs| > 1 {
        assert StartKey(bs[0]) <= StartKey(bs[1]);
      }
      assert SortedBy(bs[1..], StartKey) by {
        forall i, j | 0 <= i < j < |bs[1..]| ensures StartKey(bs[1..][i]) <= StartKey(bs[1..][j]) {
          assert bs[1..][i] == bs[i + 1] && bs[1..][j] == bs[j + 1];
        }
      }
      SweepAllMisses(Sweep(s, b, 0), bs[1..], done + [b], hi, b.start);
      assert done + [b] + bs[1..] == done + bs;
    }
  }

  /** No returned pair overlaps any block, whatever the blocks are, even
      ones that end before they start. */
  lemma {:induction false} AvailabilityMissesBlocks(start: int, end: int, blocks: seq<Block>)
    ensures forall iv, b :: iv in Availability(start, end, blocks) && b in blocks ==> !Overlaps(b, iv)
  {
    var sorted := SortBy(blocks, StartKey);
    SortBySorted(blocks, StartKey);
    var s0 := [Interval(start, end)];
    var lim := if sorted == [] then 0 else sorted[0].start;
    SweepAllMisses(s0, sorted, [], end, lim);
    assert [] + sorted == sorted;
    forall iv, b | iv in Availability(start, end, blocks) && b in blocks ensures !Overlaps(b, iv) {
      assert b in multiset(blocks);
      assert b in sorted;
    }
  }

  /** The returned pairs are pairwise disjoint and none overlaps any block. */
  lemma {:induction false} AvailabilityAvoidsBlocks(start: int, end: int, blocks: seq<Block>)
    requires start < end
    requires forall b :: b in blocks ==> b.start <= b.end
    ensures PairwiseDisjoint(Availability(start, end, blocks))
    ensures forall iv, b :: iv in Availability(start, end, blocks) && b in blocks ==> !Overlaps(b, iv)
  {
    var sorted := SortBy(blocks, StartKey);
    SortBySorted(blocks, StartKey);
    forall b | b in sorted ensures b in blocks {
      assert b in multiset(sorted);
    }
    var s0 := [Interval(start, end)];
    var lim := if sorted == [] then 0 else sorted[0].start;
    SweepAllSorted(s0, sorted, [], start, end, lim);
    assert [] + sorted == sorted;
    forall iv, b | iv in Availability(start, end, blocks) && b in blocks ensures !Overlaps(b, iv) {
      assert b in multiset(blocks);
      assert b in sorted;
    }
  }

  /** The returned pairs and the blocks tile the window: an instant of the
      window is in some returned pair exactly when no block covers it. */
  lemma {:induction false} AvailabilityTiles(start: int, end: int, blocks: seq<Block>, t: int)
    requires start <= t < end
    ensures (exists iv :: iv in Availability(start, end, blocks) && Contains(iv, t))
        <==> (forall b :: b in blocks ==> !InBlock(b, t))
  {
    if forall b :: b in blocks ==> !InBlock(b, t) {
      AvailabilityKeepsFreeTime(start, end, blocks, t);
    } else {
      var b :| b in blocks && InBlock(b, t);
      AvailabilityMissesBlocks(start, end, blocks);
      forall iv | iv in Availability(start, end, blocks) ensures !Contains(iv, t) {
        assert !Overlaps(b, iv);
      }
    }
  }

  /** With no blocks the window is returned whole. */
  lemma AvailabilityNoBlocks(start: int, end: int)
    ensures Availability(start, end, []) == [Interval(start, end)]
  {
  }

  /** A block that ends before it starts cuts the window into two pairs that
      overlap each other: the tiling needs blocks that run forwards. */
  lemma AvailabilityBackwardBlock()
    ensures Availability(0, 100, [Block(50, 40)]) == [Interval(0, 50), Interval(40, 100)]
    ensures !Disjoint(Interval(0, 50), Interval(40, 100))
  {
    AvailabilityOneBlock(0, 100, Block(50, 40));
  }

  /** One block: the window is unchanged, dropped, or cut as the case split says. */
  lemma {:induction false} AvailabilityOneBlock(start: int, end: int, b: Block)
    ensures Availability(start, end, [b])
         == if Overlaps(b, Interval(start, end)) then Pieces(b, Interval(start, end)) else [Interval(start, end)]
    ensures b.start <= start && end <= b.end && start < end ==> Availability(start, end, [b]) == []
    ensures start < b.start <= b.end < end ==> Availability(start, end, [b]) == [Interval(start, b.start), Interval(b.end, end)]
    ensures start < b.start < end <= b.end ==> Availability(start, end, [b]) == [Interval(start, b.start)]
    ensures b.start <= start < b.end < end ==> Availability(start, end, [b]) == [Interval(b.end, end)]
  {
    var w := Interval(start, end);
    assert SortBy([b], StartKey) == [b];
    assert [b][1..] == [];
    if Overlaps(b, w) {
      assert RemoveFirst([w], w) == [];
      assert [] + Pieces(b, w) == Pieces(b, w);
      assert Sweep([w], b, 0) == Sweep(Pieces(b, w), b, 1);
      forall p | 1 <= p < |Pieces(b, w)| ensures !Overlaps(b, Pieces(b, w)[p]) {
        assert Pieces(b, w)[p] in Pieces(b, w);
      }
      SweepUnchanged(Pieces(b, w), b, 1);
    } else {
      SweepUnchanged([w], b, 0);
    }
    assert SweepAll([w], [b]) == SweepAll(Sweep([w], b, 0), []);
  }
}
