/** The evolutionary router's values: a usage (flow per route and per
    link), an individual (one route per agent group share, its usage and
    score) and an island (its population and bookkeeping). All of them are
    plain values held in vectors; the functions that change them take them
    by reference, which the model writes as a value in and a value out. */
module EaData {
  import opened Network
  import Data
  import Sorting

  /** `usage`: the flow on every route and on every link used. */
  datatype Usage = Usage(routeFlow: seq<real>, edgeFlow: map<Link, real>)

  /** `individual`: its routes, current and previous usage, and score
      (-1 until scored). */
  datatype Individual = Individual(routes: seq<Data.Route>, u: Usage, oldUsage: Usage, score: real)

  /** `island`: parents, offspring, crossover offspring, the iteration of
      each parent's last exchange mutation, and the stagnation and
      migration counters. */
  datatype Island = Island(parents: seq<Individual>, offspring: seq<Individual>,
                           crossoverOffspring: seq<Individual>, lastExchanges: seq<int>,
                           iterationsWithoutChange: int, lastMigration: int)

  /** `individual::operator<`: by score. */
  function ByScore(x: Individual, y: Individual): bool
  {
    x.score < y.score
  }

  lemma ByScoreIsStrictWeak()
    ensures Sorting.StrictWeakOrder(ByScore)
  {
  }
}
