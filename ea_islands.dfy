/** The island model of the evolutionary router: selecting the next
    parents of an island from its parents, its offspring and (when a
    crossover operator is configured) its crossover offspring, the
    stagnation counters kept per island and for the whole run, and the
    migration of a good individual from the other islands into a
    stagnating one. The islands are values in a vector that the source
    changes in place; each operation here takes them in and gives the new
    vector back. The islands are visited one after the other. */
module EaIslands {
  import opened Common
  import opened Sorting
  import opened EaData
  import EaUtil

  // ---------------------------------------------------------------------
  // Scores

  /** The least score among the individuals. */
  function MinScore(xs: seq<Individual>): (m: real)
    requires |xs| > 0
    ensures forall i :: 0 <= i < |xs| ==> m <= xs[i].score
    ensures exists i :: 0 <= i < |xs| && m == xs[i].score
  {
    if |xs| == 1 then xs[0].score
    else
      var m' := MinScore(xs[1..]);
      assert forall i :: 1 <= i < |xs| ==> xs[i] == xs[1..][i - 1];
      if xs[0].score <= m' then xs[0].score else m'
  }

  /** `round` never decreases. */
  lemma RoundMonotone(x: real, y: real)
    requires x <= y
    ensures Round(x) <= Round(y)
  {
  }

  /** The head of the sorted individuals has the least score. */
  lemma SortedHeadIsMin(xs: seq<Individual>)
    requires |xs| > 0
    ensures SortBy(xs, ByScore)[0].score == MinScore(xs)
  {
    var s := SortBy(xs, ByScore);
    ByScoreIsStrictWeak();
    SortBySorted(xs, ByScore);
    HeadIsMin(s);
    assert s[0] in multiset(xs);
    forall i | 0 <= i < |xs|
      ensures s[0].score <= xs[i].score
    {
      assert xs[i] in multiset(s);
    }
  }

  /** In a sequence sorted by score, no score is below the head's. */
  lemma HeadIsMin(s: seq<Individual>)
    requires |s| > 0 && SortedBy(s, ByScore)
    ensures forall x :: x in multiset(s) ==> s[0].score <= x.score
  {
    forall x | x in multiset(s)
      ensures s[0].score <= x.score
    {
      var t :| 0 <= t < |s| && s[t] == x;
      if t > 0 {
        assert !ByScore(s[t], s[0]);
      }
    }
  }

  // ---------------------------------------------------------------------
  // update_parents

  /** The crossover offspring are let in when the rounded score of the
      head of their sorted sequence is strictly below the rounded score of
      the head of the sorted parents, that is, when their best is (see
      `ImprovesOnBest`). */
  predicate Improves(crossover: seq<Individual>, parents: seq<Individual>)
    requires |crossover| > 0 && |parents| > 0
  {
    Round(SortBy(crossover, ByScore)[0].score) < Round(SortBy(parents, ByScore)[0].score)
  }

  /** The crossover offspring are let in exactly when the rounded score of
      their best is strictly below the rounded score of the best parent. */
  lemma ImprovesOnBest(crossover: seq<Individual>, parents: seq<Individual>)
    requires |crossover| > 0 && |parents| > 0
    ensures Improves(crossover, parents) <==> Round(MinScore(crossover)) < Round(MinScore(parents))
  {
    SortedHeadIsMin(crossover);
    SortedHeadIsMin(parents);
  }

  /** Whether the crossover offspring take part in the selection. */
  predicate TakesCrossover(parents: seq<Individual>, crossover: Option<seq<Individual>>)
    requires |parents| > 0 && (crossover.Some? ==> |crossover.value| > 0)
  {
    crossover.Some? && Improves(crossover.value, parents)
  }

  /** The candidates for the next parents, ranked: the sorted parents
      merged with the sorted offspring, and that merged with the sorted
      crossover offspring when they take part. */
  function Ranked(parents: seq<Individual>, offspring: seq<Individual>, crossover: Option<seq<Individual>>): seq<Individual>
    requires |parents| > 0 && (crossover.Some? ==> |crossover.value| > 0)
  {
    var merged := Merge(SortBy(parents, ByScore), SortBy(offspring, ByScore), ByScore);
    if TakesCrossover(parents, crossover) then Merge(merged, SortBy(crossover.value, ByScore), ByScore)
    else merged
  }

  /** The individuals that compete for the next parents. */
  function Pool(parents: seq<Individual>, offspring: seq<Individual>, crossover: Option<seq<Individual>>): multiset<Individual>
    requires |parents| > 0 && (crossover.Some? ==> |crossover.value| > 0)
  {
    multiset(parents) + multiset(offspring) +
    if TakesCrossover(parents, crossover) then multiset(crossover.value) else multiset{}
  }

  /** The ranking holds every competitor once and is in score order. */
  lemma RankedIsSortedPool(parents: seq<Individual>, offspring: seq<Individual>, crossover: Option<seq<Individual>>)
    requires |parents| > 0 && (crossover.Some? ==> |crossover.value| > 0)
    ensures multiset(Ranked(parents, offspring, crossover)) == Pool(parents, offspring, crossover)
    ensures |Ranked(parents, offspring, crossover)| >= |parents|
    ensures SortedBy(Ranked(parents, offspring, crossover), ByScore)
  {
    ByScoreIsStrictWeak();
    var sp, so := SortBy(parents, ByScore), SortBy(offspring, ByScore);
    SortBySorted(parents, ByScore);
    SortBySorted(offspring, ByScore);
    MergeSorted(sp, so, ByScore);
    if TakesCrossover(parents, crossover) {
      SortBySorted(crossover.value, ByScore);
      MergeSorted(Merge(sp, so, ByScore), SortBy(crossover.value, ByScore), ByScore);
    }
  }

  /** The next parents of `update_parents`: the first |parents| of the
      ranking. */
  function Survivors(parents: seq<Individual>, offspring: seq<Individual>, crossover: Option<seq<Individual>>): seq<Individual>
    requires |parents| > 0 && (crossover.Some? ==> |crossover.value| > 0)
  {
    RankedIsSortedPool(parents, offspring, crossover);
    Ranked(parents, offspring, crossover)[..|parents|]
  }

  /** The survivors are as many as the parents were, in score order, drawn
      from the competitors, and none of the competitors left out has a
      lower score than any survivor: they are the |parents| best. */
  lemma SurvivorsAreBest(parents: seq<Individual>, offspring: seq<Individual>, crossover: Option<seq<Individual>>)
    requires |parents| > 0 && (crossover.Some? ==> |crossover.value| > 0)
    ensures var r := Survivors(parents, offspring, crossover);
            var rest := Ranked(parents, offspring, crossover)[|parents|..];
            |r| == |parents| && SortedBy(r, ByScore) &&
            multiset(r) + multiset(rest) == Pool(parents, offspring, crossover) &&
            forall x, y :: x in multiset(r) && y in multiset(rest) ==> x.score <= y.score
  {
    RankedIsSortedPool(parents, offspring, crossover);
    PrefixIsBest(Ranked(parents, offspring, crossover), |parents|);
  }

  /** Cutting a sequence sorted by score after n elements: the front is
      sorted, and nothing behind the cut scores below anything in front. */
  lemma PrefixIsBest(ranked: seq<Individual>, n: int)
    requires SortedBy(ranked, ByScore) && 0 <= n <= |ranked|
    ensures SortedBy(ranked[..n], ByScore)
    ensures multiset(ranked[..n]) + multiset(ranked[n..]) == multiset(ranked)
    ensures forall x, y :: x in multiset(ranked[..n]) && y in multiset(ranked[n..]) ==> x.score <= y.score
  {
    var r, rest := ranked[..n], ranked[n..];
    assert ranked == r + rest;
    forall x: Individual, y: Individual | x in multiset(r) && y in multiset(rest)
      ensures x.score <= y.score
    {
      var s :| 0 <= s < |r| && r[s] == x;
      var t :| 0 <= t < |rest| && rest[t] == y;
      assert ranked[s] == x && ranked[n + t] == y;
    }
  }

  /** The best survivor has the least score of all competitors, so the
      best score of an island never gets worse, and when the crossover
      offspring take part the rounded best score strictly improves. */
  lemma BestSurvivor(parents: seq<Individual>, offspring: seq<Individual>, crossover: Option<seq<Individual>>)
    requires |parents| > 0 && (crossover.Some? ==> |crossover.value| > 0)
    ensures var best := Survivors(parents, offspring, crossover)[0];
            best in Pool(parents, offspring, crossover) &&
            (forall x :: x in Pool(parents, offspring, crossover) ==> best.score <= x.score) &&
            best.score <= MinScore(parents) &&
            (TakesCrossover(parents, crossover) ==> Round(best.score) < Round(MinScore(parents)))
  {
    var ranked := Ranked(parents, offspring, crossover);
    RankedIsSortedPool(parents, offspring, crossover);
    HeadIsMin(ranked);
    var best := ranked[0];
    assert Survivors(parents, offspring, crossover)[0] == best;
    assert best in multiset(ranked);
    MinInPool(parents, ranked, multiset(parents));
    if TakesCrossover(parents, crossover) {
      ImprovesOnBest(crossover.value, parents);
      MinInPool(crossover.value, ranked, multiset(crossover.value));
      RoundMonotone(best.score, MinScore(crossover.value));
    }
  }

  /** The least score of a group that is part of the ranking is no lower
      than the ranking's head. */
  lemma MinInPool(xs: seq<Individual>, ranked: seq<Individual>, part: multiset<Individual>)
    requires |xs| > 0 && |ranked| > 0 && part == multiset(xs) && part <= multiset(ranked)
    requires forall x :: x in multiset(ranked) ==> ranked[0].score <= x.score
    ensures ranked[0].score <= MinScore(xs)
  {
    var i :| 0 <= i < |xs| && xs[i].score == MinScore(xs);
    assert xs[i] in part;
  }

  /** `std::merge` keeps the first range ahead of the second when nothing
      in the second is less than anything in the first. */
  lemma {:induction false} MergeNoLess(xs: seq<Individual>, ys: seq<Individual>)
    requires forall i, j :: 0 <= i < |xs| && 0 <= j < |ys| ==> !ByScore(ys[j], xs[i])
    ensures Merge(xs, ys, ByScore) == xs + ys
    decreases |xs|
  {
    if |xs| > 0 && |ys| > 0 {
      assert !ByScore(ys[0], xs[0]);
      MergeNoLess(xs[1..], ys);
      assert xs == [xs[0]] + xs[1..];
    }
  }

  /** Merge ties keep the parents first: offspring none of which scores
      below any parent, and crossover offspring that do not take part,
      leave the sorted parents in place. */
  lemma NoBetterOffspringKeepsParents(parents: seq<Individual>, offspring: seq<Individual>, crossover: Option<seq<Individual>>)
    requires |parents| > 0 && (crossover.Some? ==> |crossover.value| > 0)
    requires forall i, j :: 0 <= i < |parents| && 0 <= j < |offspring| ==> parents[i].score <= offspring[j].score
    requires !TakesCrossover(parents, crossover)
    ensures Survivors(parents, offspring, crossover) == SortBy(parents, ByScore)
  {
    var sp, so := SortBy(parents, ByScore), SortBy(offspring, ByScore);
    forall i, j | 0 <= i < |sp| && 0 <= j < |so|
      ensures !ByScore(so[j], sp[i])
    {
      assert sp[i] in multiset(parents) && so[j] in multiset(offspring);
      var k :| 0 <= k < |parents| && parents[k] == sp[i];
      var l :| 0 <= l < |offspring| && offspring[l] == so[j];
    }
    MergeNoLess(sp, so);
    assert (sp + so)[..|parents|] == sp;
  }

  /** `update_parents`: sorts the parents, the offspring and (when given)
      the crossover offspring in place, merges them and moves the first
      |parents| of the merge into the parents. The parents become the
      survivors; offspring and crossover offspring stay sorted. */
  method UpdateParents(parents: seq<Individual>, offspring: seq<Individual>, crossover: Option<seq<Individual>>)
    returns (parents': seq<Individual>, offspring': seq<Individual>, crossover': Option<seq<Individual>>)
    requires |parents| > 0 && |offspring| == |parents|
    requires crossover.Some? ==> |crossover.value| > 0
    ensures parents' == Survivors(parents, offspring, crossover)
    ensures offspring' == SortBy(offspring, ByScore)
    ensures crossover.None? ==> crossover'.None?
    ensures crossover.Some? ==> crossover' == Some(SortBy(crossover.value, ByScore))
  {
    var sp := SortBy(parents, ByScore);
    offspring' := SortBy(offspring, ByScore);
    crossover' := None;
    var concatenated := Merge(sp, offspring', ByScore);
    if crossover.Some? {
      var sc := SortBy(crossover.value, ByScore);
      crossover' := Some(sc);
      var improved := CrossoverImproves(parents, crossover.value);
      if improved {
        concatenated := Merge(concatenated, sc, ByScore);
      }
    }
    assert concatenated == Ranked(parents, offspring, crossover);
    RankedIsSortedPool(parents, offspring, crossover);
    parents' := MoveFront(parents, concatenated);
  }

  /** The test of `update_parents` on the sorted heads: the best crossover
      offspring's rounded score is strictly below the best parent's. */
  method CrossoverImproves(parents: seq<Individual>, crossover: seq<Individual>) returns (improved: bool)
    requires |parents| > 0 && |crossover| > 0
    ensures improved <==> Improves(crossover, parents)
  {
    var crScore := Round(SortBy(crossover, ByScore)[0].score);
    var bpScore := Round(SortBy(parents, ByScore)[0].score);
    improved := crScore < bpScore;
  }

  /** `std::move` of the first |dst| elements of `src` over `dst`. */
  method MoveFront(dst: seq<Individual>, src: seq<Individual>) returns (dst': seq<Individual>)
    requires |dst| <= |src|
    ensures dst' == src[..|dst|]
  {
    dst' := dst;
    for i := 0 to |dst|
      invariant |dst'| == |dst|
      invariant dst'[..i] == src[..i]
    {
      dst' := dst'[i := src[i]];
      assert dst'[..i + 1] == dst'[..i] + [src[i]];
    }
  }

  // ---------------------------------------------------------------------
  // update_islands

  /** What `update_islands` needs of an island: parents, as many offspring,
      and crossover offspring when a crossover operator is configured. */
  predicate Ready(isl: Island, withCrossover: bool)
  {
    |isl.parents| > 0 && |isl.offspring| == |isl.parents| &&
    (withCrossover ==> |isl.crossoverOffspring| > 0)
  }

  /** The crossover offspring `update_parents` is given. */
  function CrossoverOf(isl: Island, withCrossover: bool): Option<seq<Individual>>
  {
    if withCrossover then Some(isl.crossoverOffspring) else None
  }

  /** The rounded score of the island's first parent differs. */
  predicate Changed(before: Island, after: Island)
  {
    |before.parents| > 0 && |after.parents| > 0 &&
    Round(before.parents[0].score) != Round(after.parents[0].score)
  }

  /** The island after `update_parents`: its survivors as parents, its
      offspring and (with a crossover operator) its crossover offspring
      sorted, the rest as it was. */
  function Reselected(isl: Island, withCrossover: bool): (r: Island)
    requires Ready(isl, withCrossover)
    ensures |r.parents| == |isl.parents|
  {
    SurvivorsAreBest(isl.parents, isl.offspring, CrossoverOf(isl, withCrossover));
    isl.(parents := Survivors(isl.parents, isl.offspring, CrossoverOf(isl, withCrossover)),
         offspring := SortBy(isl.offspring, ByScore),
         crossoverOffspring := if withCrossover then SortBy(isl.crossoverOffspring, ByScore) else isl.crossoverOffspring)
  }

  /** `update_parents` changes the rounded score of the island's first
      parent. */
  predicate ChangedBy(isl: Island, withCrossover: bool)
    requires Ready(isl, withCrossover)
  {
    Changed(isl, Reselected(isl, withCrossover))
  }

  /** The island after `update_islands`: reselected, its counter restarted
      when the rounded score of its first parent changed and counted up
      otherwise. */
  function UpdatedIsland(isl: Island, withCrossover: bool): (r: Island)
    requires Ready(isl, withCrossover)
    ensures |r.parents| == |isl.parents|
  {
    Reselected(isl, withCrossover).(iterationsWithoutChange :=
      if ChangedBy(isl, withCrossover) then 0 else isl.iterationsWithoutChange + 1)
  }

  /** One island of `update_islands`. */
  method UpdateIsland(isl: Island, withCrossover: bool) returns (next: Island, changed: bool)
    requires Ready(isl, withCrossover)
    ensures next == UpdatedIsland(isl, withCrossover) && |next.parents| > 0
    ensures changed <==> Changed(isl, next)
  {
    var scoreBefore := Round(isl.parents[0].score);
    var parents, offspring, crossover := UpdateParents(isl.parents, isl.offspring, CrossoverOf(isl, withCrossover));
    ghost var r := Reselected(isl, withCrossover);
    assert parents == r.parents;
    changed := scoreBefore != Round(parents[0].score);
    var counter := if changed then 0 else isl.iterationsWithoutChange + 1;
    var crossoverOffspring := if crossover.Some? then crossover.value else isl.crossoverOffspring;
    next := isl.(parents := parents, offspring := offspring, crossoverOffspring := crossoverOffspring,
                 iterationsWithoutChange := counter);
  }

  /** Every island has a first parent. */
  predicate HaveParents(islands: seq<Island>)
  {
    forall i :: 0 <= i < |islands| ==> |islands[i].parents| > 0
  }

  /** `update_islands`: gives every island its survivors (sorting its
      offspring and crossover offspring in place) and updates its
      stagnation counter; the run's counter restarts when any island
      changed and counts up otherwise. Returns the island holding the best
      individual and whether any island changed. */
  method UpdateIslands(islands: seq<Island>, iterationsWithoutChange: int, withCrossover: bool)
    returns (islands': seq<Island>, iterationsWithoutChange': int, best: int, change: int)
    requires |islands| > 0 && forall i :: 0 <= i < |islands| ==> Ready(islands[i], withCrossover)
    ensures |islands'| == |islands| && HaveParents(islands')
    ensures forall i :: 0 <= i < |islands| ==> islands'[i] == UpdatedIsland(islands[i], withCrossover)
    ensures change == 0 || change == 1
    ensures change == 1 <==> exists i :: 0 <= i < |islands| && Changed(islands[i], islands'[i])
    ensures iterationsWithoutChange' == if change != 0 then 0 else iterationsWithoutChange + 1
    ensures 0 <= best < |islands|
    ensures forall i :: 0 <= i < |islands| ==> EaUtil.TopScore(islands'[best]) <= EaUtil.TopScore(islands'[i])
    ensures forall i :: 0 <= i < best ==> EaUtil.TopScore(islands'[best]) < EaUtil.TopScore(islands'[i])
  {
    islands' := UpdateEach(islands, withCrossover);
    change := AnyChanged(islands, islands');
    if change != 0 {
      iterationsWithoutChange' := 0;
    } else {
      iterationsWithoutChange' := iterationsWithoutChange + 1;
    }
    best := EaUtil.GetBestIndividual(islands');
  }

  /** The loop of `update_islands` over the islands, as far as the islands
      themselves are concerned. */
  method UpdateEach(islands: seq<Island>, withCrossover: bool) returns (updated: seq<Island>)
    requires forall i :: 0 <= i < |islands| ==> Ready(islands[i], withCrossover)
    ensures |updated| == |islands| && HaveParents(updated)
    ensures forall i :: 0 <= i < |islands| ==> updated[i] == UpdatedIsland(islands[i], withCrossover)
  {
    updated := [];
    for i := 0 to |islands|
      invariant |updated| == i
      invariant forall j :: 0 <= j < i ==> updated[j] == UpdatedIsland(islands[j], withCrossover)
    {
      var next, _ := UpdateIsland(islands[i], withCrossover);
      updated := updated + [next];
    }
    assert HaveParents(updated) by {
      forall j | 0 <= j < |updated|
        ensures |updated[j].parents| > 0
      {
        assert |UpdatedIsland(islands[j], withCrossover).parents| == |islands[j].parents|;
      }
    }
  }

  /** The `change` flag of `update_islands`: 1 when the rounded score of
      some island's first parent differs before and after, 0 otherwise. */
  method AnyChanged(before: seq<Island>, after: seq<Island>) returns (change: int)
    requires |before| == |after|
    ensures change == 0 || change == 1
    ensures change == 1 <==> exists i :: 0 <= i < |before| && Changed(before[i], after[i])
  {
    change := 0;
    ghost var changedAt := 0;
    for i := 0 to |before|
      invariant change == 0 || change == 1
      invariant change == 0 ==> forall j :: 0 <= j < i ==> !Changed(before[j], after[j])
      invariant change == 1 ==> 0 <= changedAt < i && Changed(before[changedAt], after[changedAt])
    {
      if Changed(before[i], after[i]) {
        change := 1;
        changedAt := i;
      }
    }
  }

  /** When the island's parents were in score order, a change of its
      rounded best score can only be an improvement. */
  lemma ChangeIsImprovement(isl: Island, withCrossover: bool)
    requires Ready(isl, withCrossover) && SortedBy(isl.parents, ByScore)
    ensures var after := Survivors(isl.parents, isl.offspring, CrossoverOf(isl, withCrossover));
            Round(after[0].score) <= Round(isl.parents[0].score)
  {
    var crossover := CrossoverOf(isl, withCrossover);
    BestSurvivor(isl.parents, isl.offspring, crossover);
    HeadIsMin(isl.parents);
    var i :| 0 <= i < |isl.parents| && isl.parents[i].score == MinScore(isl.parents);
    assert isl.parents[i] in multiset(isl.parents);
    RoundMonotone(Survivors(isl.parents, isl.offspring, crossover)[0].score, isl.parents[0].score);
  }
}
