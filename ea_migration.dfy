/** `do_migrations`: an island that has stagnated long enough, and has not
    received a migrant for as long, replaces its worst parent with one of
    the best parents of the other islands. Candidates are listed as
    `(score, island, index)` tuples, sorted, and one of the first
    `topIndivCount` is drawn with weights proportional to their scores;
    the draw is a parameter here. The islands are visited in order, so a
    later island may receive an individual that arrived on an earlier one
    in the same pass. */
module EaMigration {
  import opened Common
  import opened Sorting
  import opened EaData
  import opened EaIslands

  /** The `(score, island, index)` tuple naming one parent of another island. */
  datatype Candidate = Candidate(score: real, island: int, index: int)

  /** The tuple's `operator<`: by score, then island, then index. */
  function CandidateLess(a: Candidate, b: Candidate): bool
  {
    a.score < b.score ||
    (a.score == b.score && (a.island < b.island || (a.island == b.island && a.index < b.index)))
  }

  lemma CandidateLessIsStrictWeak()
    ensures StrictWeakOrder(CandidateLess)
  {
  }

  /** `topIndivCount = min(3, (islandsCount - 1) * inds)`. */
  function TopCount(islandsCount: int, inds: int): (top: int)
    ensures top <= 3 && top <= (islandsCount - 1) * inds
    ensures top == 3 || top == (islandsCount - 1) * inds
  {
    if 3 <= (islandsCount - 1) * inds then 3 else (islandsCount - 1) * inds
  }

  /** An island migrates when it has gone `forMigration` iterations without
      change and at least as long since its last migration. */
  predicate Eligible(isl: Island, iteration: int, forMigration: int)
  {
    isl.iterationsWithoutChange >= forMigration && iteration - isl.lastMigration >= forMigration
  }

  /** Every island holds `inds` parents in score order. */
  ghost predicate Populated(islands: seq<Island>, inds: int)
  {
    forall k :: 0 <= k < |islands| ==>
      |islands[k].parents| == inds && SortedBy(islands[k].parents, ByScore)
  }

  /** Every island holds `inds` parents. */
  predicate Sized(islands: seq<Island>, inds: int)
  {
    forall k :: 0 <= k < |islands| ==> |islands[k].parents| == inds
  }

  /** The tuple for parent `l` of island `k`. */
  function Entry(islands: seq<Island>, k: int, l: int): Candidate
    requires 0 <= k < |islands| && 0 <= l < |islands[k].parents|
  {
    Candidate(islands[k].parents[l].score, k, l)
  }

  /** `e` names a parent of an island other than `i`, with that parent's score. */
  predicate IsCandidate(islands: seq<Island>, i: int, e: Candidate)
  {
    0 <= e.island < |islands| && e.island != i && 0 <= e.index < |islands[e.island].parents| &&
    e.score == islands[e.island].parents[e.index].score
  }

  /** Number of tuples listed before island `k`'s when island `i` is skipped. */
  function Filled(i: int, inds: int, k: int): int
  {
    (if k <= i then k else k - 1) * inds
  }

  /** Position of parent `l` of island `k` in the list built for island `i`. */
  function Slot(i: int, inds: int, k: int, l: int): int
  {
    (if k < i then k else k - 1) * inds + l
  }

  lemma SlotBelow(m: int, n: int, inds: int, l: int)
    requires 0 <= m < n && 0 <= l < inds
    ensures m * inds + l < n * inds
  {
    assert (n - m - 1) * inds >= 0;
    assert n * inds == m * inds + inds + (n - m - 1) * inds;
  }

  /** The candidate list of island `i`: the parents of every other island,
      island by island and parent by parent, each at its own position, and
      nothing else. */
  method CollectCandidates(islands: seq<Island>, i: int, inds: int) returns (c: seq<Candidate>)
    requires 0 <= i < |islands| && inds >= 0 && Sized(islands, inds)
    ensures |c| == inds * (|islands| - 1)
    ensures forall t :: 0 <= t < |c| ==> IsCandidate(islands, i, c[t])
    ensures forall k, l :: 0 <= k < |islands| && k != i && 0 <= l < inds ==>
              0 <= Slot(i, inds, k, l) < |c| && c[Slot(i, inds, k, l)] == Entry(islands, k, l)
  {
    c := [];
    for k := 0 to |islands|
      invariant |c| == Filled(i, inds, k)
      invariant forall t :: 0 <= t < |c| ==> IsCandidate(islands, i, c[t])
      invariant forall k', l :: 0 <= k' < k && k' != i && 0 <= l < inds ==>
                  0 <= Slot(i, inds, k', l) < |c| && c[Slot(i, inds, k', l)] == Entry(islands, k', l)
    {
      FilledStep(i, inds, k);
      if k != i {
        c := CollectIsland(islands, i, inds, k, c);
      }
    }
    FilledStep(i, inds, |islands| - 1);
  }

  /** One more island adds `inds` slots, except island `i` itself; past
      the last island every other island's parents are placed. */
  lemma FilledStep(i: int, inds: int, k: int)
    requires 0 <= i && 0 <= k
    ensures Filled(i, inds, k + 1) == Filled(i, inds, k) + (if k != i then inds else 0)
    ensures i <= k ==> Filled(i, inds, k + 1) == inds * k
  {
    if k < i {
      assert (k + 1) * inds == k * inds + inds;
    } else if k > i {
      assert k * inds == (k - 1) * inds + inds;
    }
  }

  /** The inner loop of the list: appends the parents of island `k`. */
  method CollectIsland(islands: seq<Island>, i: int, inds: int, k: int, c: seq<Candidate>) returns (c': seq<Candidate>)
    requires 0 <= i < |islands| && inds >= 0 && Sized(islands, inds)
    requires 0 <= k < |islands| && k != i && |c| == Filled(i, inds, k)
    requires forall t :: 0 <= t < |c| ==> IsCandidate(islands, i, c[t])
    requires forall k', l :: 0 <= k' < k && k' != i && 0 <= l < inds ==>
               0 <= Slot(i, inds, k', l) < |c| && c[Slot(i, inds, k', l)] == Entry(islands, k', l)
    ensures |c'| == |c| + inds
    ensures forall t :: 0 <= t < |c'| ==> IsCandidate(islands, i, c'[t])
    ensures forall k', l :: 0 <= k' <= k && k' != i && 0 <= l < inds ==>
              0 <= Slot(i, inds, k', l) < |c'| && c'[Slot(i, inds, k', l)] == Entry(islands, k', l)
  {
    c' := c;
    for l := 0 to inds
      invariant |c'| == |c| + l && c'[..|c|] == c
      invariant forall t :: 0 <= t < |c'| ==> IsCandidate(islands, i, c'[t])
      invariant forall l' :: 0 <= l' < l ==> c'[|c| + l'] == Entry(islands, k, l')
    {
      c' := c' + [Entry(islands, k, l)];
    }
    forall k', l | 0 <= k' <= k && k' != i && 0 <= l < inds
      ensures 0 <= Slot(i, inds, k', l) < |c'| && c'[Slot(i, inds, k', l)] == Entry(islands, k', l)
    {
      if k' < k {
        var m, n := if k' < i then k' else k' - 1, if k <= i then k else k - 1;
        SlotBelow(m, n, inds, l);
        assert c'[Slot(i, inds, k', l)] == c[Slot(i, inds, k', l)];
      } else {
        assert Slot(i, inds, k', l) == |c| + l;
      }
    }
  }

  /** The sorted candidate list of island `i`: every parent of every other
      island, in tuple order. */
  method RankCandidates(islands: seq<Island>, i: int, inds: int) returns (ranked: seq<Candidate>)
    requires 0 <= i < |islands| && inds >= 0 && Sized(islands, inds)
    ensures |ranked| == inds * (|islands| - 1) && SortedBy(ranked, CandidateLess)
    ensures forall t :: 0 <= t < |ranked| ==> IsCandidate(islands, i, ranked[t])
    ensures forall k, l :: 0 <= k < |islands| && k != i && 0 <= l < inds ==> Entry(islands, k, l) in multiset(ranked)
  {
    var c := CollectCandidates(islands, i, inds);
    CandidateLessIsStrictWeak();
    ranked := SortBy(c, CandidateLess);
    SortBySorted(c, CandidateLess);
    forall t | 0 <= t < |ranked|
      ensures IsCandidate(islands, i, ranked[t])
    {
      assert ranked[t] in multiset(c);
    }
    forall k, l | 0 <= k < |islands| && k != i && 0 <= l < inds
      ensures Entry(islands, k, l) in multiset(ranked)
    {
      assert c[Slot(i, inds, k, l)] == Entry(islands, k, l);
    }
  }

  /** The migrant overwrites the last parent, the parents are sorted again,
      the migration is dated, and the island's counter restarts when the
      rounded score of its first parent changed and counts up otherwise.
      The new first parent is never worse. */
  method Receive(before: Island, migrant: Individual, iteration: int) returns (isl: Island, improved: bool)
    requires |before.parents| > 1 && SortedBy(before.parents, ByScore)
    ensures multiset(isl.parents) == multiset(before.parents[..|before.parents| - 1]) + multiset{migrant}
    ensures |isl.parents| == |before.parents| && SortedBy(isl.parents, ByScore)
    ensures Round(isl.parents[0].score) <= Round(before.parents[0].score)
    ensures improved <==> Changed(before, isl)
    ensures isl == before.(parents := isl.parents, lastMigration := iteration,
                           iterationsWithoutChange := if improved then 0 else before.iterationsWithoutChange + 1)
  {
    var scoreBefore := Round(before.parents[0].score);
    var parents := before.parents[|before.parents| - 1 := migrant];
    ReplaceLast(before.parents, migrant);
    ByScoreIsStrictWeak();
    var sorted := SortBy(parents, ByScore);
    SortBySorted(parents, ByScore);
    KeepsBest(before.parents, migrant);
    improved := scoreBefore != Round(sorted[0].score);
    isl := before.(parents := sorted, lastMigration := iteration,
                   iterationsWithoutChange := if improved then 0 else before.iterationsWithoutChange + 1);
  }

  /** The migration of island `i`: tuple `draw` of the sorted candidate
      list, one of the first `topIndivCount`, names the migrant. */
  method Migrate(islands: seq<Island>, i: int, inds: int, iteration: int, draw: int)
    returns (isl: Island, improved: bool, ranked: seq<Candidate>)
    requires 0 <= i < |islands| && |islands| > 1 && inds > 1 && Populated(islands, inds)
    requires 0 <= draw < TopCount(|islands|, inds)
    ensures |ranked| == inds * (|islands| - 1) && SortedBy(ranked, CandidateLess)
    ensures forall t :: 0 <= t < |ranked| ==> IsCandidate(islands, i, ranked[t])
    ensures forall k, l :: 0 <= k < |islands| && k != i && 0 <= l < inds ==> Entry(islands, k, l) in multiset(ranked)
    ensures draw < |ranked| && |islands[i].parents| == inds
    ensures var m := ranked[draw];
            IsCandidate(islands, i, m) &&
            multiset(isl.parents) ==
              multiset(islands[i].parents[..inds - 1]) + multiset{islands[m.island].parents[m.index]}
    ensures |isl.parents| == inds && SortedBy(isl.parents, ByScore)
    ensures Round(isl.parents[0].score) <= Round(islands[i].parents[0].score)
    ensures improved <==> Changed(islands[i], isl)
    ensures isl == islands[i].(parents := isl.parents, lastMigration := iteration,
                               iterationsWithoutChange := if improved then 0 else islands[i].iterationsWithoutChange + 1)
  {
    assert Sized(islands, inds);
    ranked := RankCandidates(islands, i, inds);
    var m := ranked[draw];
    assert IsCandidate(islands, i, m);
    isl, improved := Receive(islands[i], islands[m.island].parents[m.index], iteration);
  }

  /** `do_migrations`: every eligible island, in order, receives the
      migrant its draw picks from the islands as they are at that moment.
      Islands that are not eligible are left alone. The run's counter
      restarts when the rounded best score of some migrating island
      changed, which can only be an improvement, and is kept otherwise. */
  method DoMigrations(islands: seq<Island>, inds: int, iteration: int, forMigration: int,
                      iterationsWithoutChange: int, draws: seq<int>)
    returns (islands': seq<Island>, iterationsWithoutChange': int)
    requires |islands| > 1 && inds > 1 && Populated(islands, inds)
    requires |draws| == |islands| && forall i :: 0 <= i < |draws| ==> 0 <= draws[i] < TopCount(|islands|, inds)
    ensures |islands'| == |islands| && Populated(islands', inds)
    ensures forall i :: 0 <= i < |islands| && !Eligible(islands[i], iteration, forMigration) ==>
              islands'[i] == islands[i]
    ensures forall i :: 0 <= i < |islands| && Eligible(islands[i], iteration, forMigration) ==>
              Migrated(islands[i], islands'[i], iteration)
    ensures iterationsWithoutChange' ==
              if exists i :: 0 <= i < |islands| && Eligible(islands[i], iteration, forMigration) && Changed(islands[i], islands'[i])
              then 0 else iterationsWithoutChange
  {
    islands' := islands;
    iterationsWithoutChange' := iterationsWithoutChange;
    ghost var changedAt := -1;
    for i := 0 to |islands|
      invariant |islands'| == |islands| && Populated(islands', inds)
      invariant forall j :: i <= j < |islands| ==> islands'[j] == islands[j]
      invariant forall j :: 0 <= j < i && !Eligible(islands[j], iteration, forMigration) ==> islands'[j] == islands[j]
      invariant forall j :: 0 <= j < i && Eligible(islands[j], iteration, forMigration) ==>
                  Migrated(islands[j], islands'[j], iteration)
      invariant changedAt == -1 ==> iterationsWithoutChange' == iterationsWithoutChange
      invariant changedAt == -1 ==>
                  forall j :: 0 <= j < i && Eligible(islands[j], iteration, forMigration) ==> !Changed(islands[j], islands'[j])
      invariant changedAt != -1 ==> iterationsWithoutChange' == 0 && 0 <= changedAt < i
      invariant changedAt != -1 ==>
                  Eligible(islands[changedAt], iteration, forMigration) && Changed(islands[changedAt], islands'[changedAt])
    {
      if Eligible(islands'[i], iteration, forMigration) {
        var isl, improved, _ := Migrate(islands', i, inds, iteration, draws[i]);
        if improved {
          iterationsWithoutChange' := 0;
          changedAt := i;
        }
        islands' := islands'[i := isl];
      }
    }
  }

  /** What a migration does to an island, whatever the migrant: its
      parents stay as many and sorted, its rounded best score does not get
      worse, the migration is dated, and its counter restarts on a change
      of the rounded best score and counts up otherwise. */
  ghost predicate Migrated(before: Island, after: Island, iteration: int)
  {
    |after.parents| == |before.parents| && SortedBy(after.parents, ByScore) && |after.parents| > 0 &&
    Round(after.parents[0].score) <= Round(before.parents[0].score) &&
    after == before.(parents := after.parents, lastMigration := iteration,
                     iterationsWithoutChange := if Changed(before, after) then 0 else before.iterationsWithoutChange + 1)
  }

  /** Overwriting the last element trades it for the new one. */
  lemma ReplaceLast(xs: seq<Individual>, x: Individual)
    requires |xs| > 0
    ensures multiset(xs[|xs| - 1 := x]) == multiset(xs[..|xs| - 1]) + multiset{x}
  {
    assert xs[|xs| - 1 := x] == xs[..|xs| - 1] + [x];
  }

  /** With at least two sorted parents the first one survives the
      overwrite of the last, so the sorted result starts no higher. */
  lemma KeepsBest(parents: seq<Individual>, migrant: Individual)
    requires |parents| > 1 && SortedBy(parents, ByScore)
    ensures var after := SortBy(parents[|parents| - 1 := migrant], ByScore);
            |after| == |parents| && after[0].score <= parents[0].score &&
            Round(after[0].score) <= Round(parents[0].score)
  {
    var replaced := parents[|parents| - 1 := migrant];
    var after := SortBy(replaced, ByScore);
    ByScoreIsStrictWeak();
    SortBySorted(replaced, ByScore);
    HeadIsMin(after);
    assert replaced[0] == parents[0];
    assert parents[0] in multiset(after);
    RoundMonotone(after[0].score, parents[0].score);
  }
}
