/**
 * The permutation engine for the travelling-salesman problem
 * (TSP/TSP/gen_model.py): cities with a memo of distances, routes with cached
 * cost and fitness, and a population that breeds the next generation by order
 * crossover and swap mutation.
 *
 * Every random draw is a parameter. `np.sqrt` is the parameter `sqrt`, so the
 * model says which number is passed to it but not how the root is rounded.
 * Floating-point numbers are exact reals.
 */
module Tsp {
  import opened Sequences
  import Ox = OrderCrossover

  /**
   * What `Route.fitness` caches and yields. The cost is a numpy float, so
   * `1 / travel_cost` is `inf` when the cost is 0 (numpy warns; nothing is
   * raised). `Finite(0.0)` is the "unset" value.
   */
  datatype Reciprocal = Finite(v: real) | Infinite

  /** The Euclidean distance between two cities, with the square root left to `sqrt`. */
  function Distance(a: City, b: City, sqrt: real -> real): real
  {
    sqrt((a.x - b.x) * (a.x - b.x) + (a.y - b.y) * (a.y - b.y))
  }

  /** No two cities of the catalog share a name (the memo is keyed by name). */
  ghost predicate UniqueNames(catalog: seq<City>)
  {
    forall i, j :: 0 <= i < j < |catalog| ==> catalog[i].name != catalog[j].name
  }

  /** Names identify cities inside a catalog with unique names. */
  lemma SameName(catalog: seq<City>, a: City, b: City)
    requires UniqueNames(catalog) && a in catalog && b in catalog && a.name == b.name
    ensures a == b
  {
    var i :| 0 <= i < |catalog| && catalog[i] == a;
    var j :| 0 <= j < |catalog| && catalog[j] == b;
  }

  /**
   * The cities of a catalog have unique names and every memo entry of each of
   * them holds the true distance to the catalog city of that name.
   */
  ghost predicate SoundCatalog(catalog: seq<City>, sqrt: real -> real)
    reads catalog
  {
    && UniqueNames(catalog)
    && forall c :: c in catalog ==> c.MemoSound(catalog, sqrt)
  }

  class City {
    const name: string
    const x: real
    const y: real
    var distances: map<string, real>

    constructor (name: string, x: real, y: real)
      ensures this.name == name && this.x == x && this.y == y
      ensures distances == map[]
    {
      this.name := name;
      this.x := x;
      this.y := y;
      distances := map[];
    }

    /** Every stored distance to a catalog city is the true distance to it. */
    ghost predicate MemoSound(catalog: seq<City>, sqrt: real -> real)
      reads this
    {
      forall c :: c in catalog && c.name in distances ==> distances[c.name] == Distance(this, c, sqrt)
    }

    /**
     * `distance_to`: the memoised value for a name already seen, and otherwise
     * the computed distance, which is stored under the other city's name.
     * Inside a catalog with unique names and sound memos the answer is always
     * the true distance, and the memos stay sound.
     */
    method DistanceTo(city: City, sqrt: real -> real, ghost catalog: seq<City>) returns (d: real)
      modifies this
      ensures city.name in old(distances) ==> d == old(distances)[city.name] && distances == old(distances)
      ensures city.name !in old(distances) ==>
        d == Distance(this, city, sqrt) && distances == old(distances)[city.name := d]
      ensures old(SoundCatalog(catalog, sqrt)) && this in catalog && city in catalog ==>
        d == Distance(this, city, sqrt) && SoundCatalog(catalog, sqrt)
    {
      if city.name in distances {
        d := distances[city.name];
      } else {
        d := Distance(this, city, sqrt);
        distances := distances[city.name := d];
      }
      if old(SoundCatalog(catalog, sqrt)) && this in catalog && city in catalog {
        forall c | c in catalog && c.name in distances
          ensures distances[c.name] == Distance(this, c, sqrt)
        {
          if c.name == city.name {
            SameName(catalog, c, city);
          }
        }
      }
    }
  }

  /** Sum of the first `k` legs `cities[i] -> cities[i + 1]`, added left to right. */
  function PathSum(cities: seq<City>, k: nat, sqrt: real -> real): real
    requires k < |cities|
  {
    if k == 0 then 0.0 else PathSum(cities, k - 1, sqrt) + Distance(cities[k - 1], cities[k], sqrt)
  }

  /** Length of the closed tour: every leg in order, then back from the last city to the first. */
  function TourLength(cities: seq<City>, sqrt: real -> real): real
    requires |cities| >= 1
  {
    PathSum(cities, |cities| - 1, sqrt) + Distance(cities[|cities| - 1], cities[0], sqrt)
  }

  /** Rotating a tour by one city leaves its length unchanged. */
  lemma {:induction false} PathSumRotate(cities: seq<City>, k: nat, sqrt: real -> real)
    requires 1 <= k < |cities|
    ensures var rotated := cities[1..] + [cities[0]];
      PathSum(rotated, k - 1, sqrt) == PathSum(cities, k, sqrt) - Distance(cities[0], cities[1], sqrt)
  {
    var rotated := cities[1..] + [cities[0]];
    if k > 1 {
      PathSumRotate(cities, k - 1, sqrt);
      assert rotated[k - 2] == cities[k - 1] && rotated[k - 1] == cities[k];
    }
  }

  lemma TourLengthRotate(cities: seq<City>, sqrt: real -> real)
    requires |cities| >= 2
    ensures TourLength(cities[1..] + [cities[0]], sqrt) == TourLength(cities, sqrt)
  {
    var n := |cities|;
    var rotated := cities[1..] + [cities[0]];
    PathSumRotate(cities, n - 1, sqrt);
    assert PathSum(rotated, n - 1, sqrt)
      == PathSum(rotated, n - 2, sqrt) + Distance(rotated[n - 2], rotated[n - 1], sqrt);
    assert rotated[n - 2] == cities[n - 1] && rotated[n - 1] == cities[0] && rotated[0] == cities[1];
  }

  /** Starting the closed tour at any of its cities gives the same length. */
  lemma {:induction false} TourLengthRotations(cities: seq<City>, k: nat, sqrt: real -> real)
    requires 1 <= |cities| && k <= |cities|
    ensures TourLength(cities[k..] + cities[..k], sqrt) == TourLength(cities, sqrt)
  {
    if k == 0 {
      assert cities[k..] + cities[..k] == cities;
    } else {
      TourLengthRotations(cities, k - 1, sqrt);
      var previous := cities[k - 1..] + cities[..k - 1];
      if |cities| == 1 {
        assert cities[k..] + cities[..k] == cities;
      } else {
        TourLengthRotate(previous, sqrt);
        assert previous[1..] + [previous[0]] == cities[k..] + cities[..k];
      }
    }
  }

  class Route {
    var cities: seq<City>
    const n: nat
    var travelCost: real
    var fitness: Reciprocal

    /** `self.n` is fixed at construction and mutation never changes the length. */
    ghost predicate Valid()
      reads this
    {
      n == |cities|
    }

    /** Both caches hold the "unset" value 0. */
    ghost predicate Unset()
      reads this
    {
      travelCost == 0.0 && fitness == Finite(0.0)
    }

    /**
     * Cache coherence, with 0 as "unset": a set cost is the tour length of the
     * current cities, a set finite fitness is the reciprocal of a set cost, and
     * an infinite fitness belongs to a tour of length 0.
     */
    ghost predicate Coherent(sqrt: real -> real)
      reads this
    {
      && (travelCost != 0.0 ==> |cities| >= 1 && travelCost == TourLength(cities, sqrt))
      && (fitness.Finite? && fitness.v != 0.0 ==> travelCost != 0.0 && fitness.v == 1.0 / travelCost)
      && (fitness.Infinite? ==> |cities| >= 1 && TourLength(cities, sqrt) == 0.0)
    }

    constructor (cities: seq<City>)
      ensures this.cities == cities && Valid() && Unset()
      ensures forall sqrt :: Coherent(sqrt)
    {
      this.cities := cities;
      n := |cities|;
      travelCost := 0.0;
      fitness := Finite(0.0);
    }

    /**
     * `travel_cost`: the cached value while it is non-zero, with no distance
     * looked up; otherwise the tour is summed leg by leg through `distance_to`
     * and the sum is cached. With sound memos the result is the tour length.
     */
    method TravelCost(sqrt: real -> real, ghost catalog: seq<City>) returns (cost: real)
      requires Valid() && n >= 1
      modifies this`travelCost, cities
      ensures travelCost == cost
      ensures old(travelCost) != 0.0 ==> cost == old(travelCost) && unchanged(cities)
      ensures old(SoundCatalog(catalog, sqrt)) && (forall c :: c in cities ==> c in catalog) ==>
        SoundCatalog(catalog, sqrt) && (old(travelCost) == 0.0 ==> cost == TourLength(cities, sqrt))
      ensures old(SoundCatalog(catalog, sqrt)) && (forall c :: c in cities ==> c in catalog) && old(Coherent(sqrt)) ==>
        Coherent(sqrt) && cost == TourLength(cities, sqrt)
    {
      if travelCost == 0.0 {
        ghost var sound := SoundCatalog(catalog, sqrt) && (forall c :: c in cities ==> c in catalog);
        var pathCost := 0.0;
        var i := 0;
        while i < n - 1
          invariant 0 <= i <= n - 1
          invariant sound ==> SoundCatalog(catalog, sqrt) && pathCost == PathSum(cities, i, sqrt)
        {
          var d := cities[i].DistanceTo(cities[i + 1], sqrt, catalog);
          pathCost := pathCost + d;
          i := i + 1;
        }
        var closing := cities[n - 1].DistanceTo(cities[0], sqrt, catalog);
        pathCost := pathCost + closing;
        travelCost := pathCost;
      }
      cost := travelCost;
    }

    /**
     * `fitness`: the cached value while it is not 0; otherwise `1 / travel_cost`,
     * cached, which is `inf` when the cost is 0. With sound memos and coherent
     * caches the result is the reciprocal of the tour length, and infinite
     * exactly when that length is 0.
     */
    method Fitness(sqrt: real -> real, ghost catalog: seq<City>) returns (r: Reciprocal)
      requires Valid() && n >= 1
      modifies this`travelCost, this`fitness, cities
      ensures r == fitness
      ensures old(fitness) != Finite(0.0) ==>
        fitness == old(fitness) && travelCost == old(travelCost) && unchanged(cities)
      ensures old(fitness) == Finite(0.0) && travelCost == 0.0 ==> fitness == Infinite
      ensures old(fitness) == Finite(0.0) && travelCost != 0.0 ==> fitness == Finite(1.0 / travelCost)
      ensures old(travelCost) != 0.0 ==> travelCost == old(travelCost)
      ensures old(SoundCatalog(catalog, sqrt)) && (forall c :: c in cities ==> c in catalog) && old(Coherent(sqrt)) ==>
        SoundCatalog(catalog, sqrt) && Coherent(sqrt)
        && (r.Finite? ==> r.v == 1.0 / TourLength(cities, sqrt))
        && (r.Infinite? <==> TourLength(cities, sqrt) == 0.0)
    {
      if fitness == Finite(0.0) {
        var cost := TravelCost(sqrt, catalog);
        fitness := if cost == 0.0 then Infinite else Finite(1.0 / cost);
      }
      r := fitness;
    }

    /**
     * `mutate`: on a successful coin, swap the two distinct positions drawn by
     * `random.sample(range(n), 2)` and reset both caches; otherwise nothing changes.
     */
    method Mutate(coin: bool, i: nat, j: nat)
      requires Valid()
      requires coin ==> i < n && j < n && i != j
      modifies this`cities, this`travelCost, this`fitness
      ensures Valid()
      ensures coin ==> cities == Swapped(old(cities), i, j) && Unset()
      ensures !coin ==> cities == old(cities) && travelCost == old(travelCost) && fitness == old(fitness)
      ensures IsPermutationOf(cities, old(cities))
      ensures forall sqrt :: old(Coherent(sqrt)) ==> Coherent(sqrt)
    {
      if coin {
        SwapCities(i, j);
        ResetParams();
      }
    }

    /** `__swap_cities`: `cities[i], cities[j] = cities[j], cities[i]`. */
    method SwapCities(i: nat, j: nat)
      requires Valid() && i < n && j < n
      modifies this`cities
      ensures Valid() && cities == Swapped(old(cities), i, j)
    {
      cities := cities[i := cities[j]][j := cities[i]];
    }

    /** `__reset_params`: both caches back to the "unset" value 0. */
    method ResetParams()
      modifies this`travelCost, this`fitness
      ensures Unset()
    {
      travelCost := 0.0;
      fitness := Finite(0.0);
    }
  }

  /** The draws of `mutate`: the coin and the two positions of `random.sample`. */
  datatype SwapDraw = SwapDraw(coin: bool, i: nat, j: nat)

  /**
   * The draws of one pass of the `reproduce` loop: the two parents chosen by
   * the roulette (as indices), the crossover coin and cuts, and one mutation
   * draw per child.
   */
  datatype PairDraw = PairDraw(
    parent1: nat, parent2: nat,
    cross: bool, jcross1: nat, jcross2: nat,
    mutation1: SwapDraw, mutation2: SwapDraw)

  /**
   * The cities of a route after `mutate` with the draw `m`: swapped on a
   * successful coin, as they were otherwise. (Positions outside the route,
   * which `random.sample` cannot draw, also leave them as they were.)
   */
  function AfterMutation(cities: seq<City>, m: SwapDraw): (r: seq<City>)
    ensures |r| == |cities| && IsPermutationOf(r, cities)
  {
    if m.coin && m.i < |cities| && m.j < |cities| then Swapped(cities, m.i, m.j) else cities
  }

  /** `random.sample(range(m), 2)` yields two distinct positions. */
  predicate ValidSwap(d: SwapDraw, m: nat)
  {
    d.coin ==> d.i < m && d.j < m && d.i != d.j
  }

  /** Cuts and swap positions that the random source can produce for routes of `m` cities. */
  predicate ValidOperatorDraws(d: PairDraw, m: nat)
  {
    && (d.cross ==> 1 <= d.jcross1 <= m - 2 && d.jcross1 < d.jcross2 <= m - 1)
    && ValidSwap(d.mutation1, m) && ValidSwap(d.mutation2, m)
  }

  class Population {
    var routes: seq<Route>
    const n: nat

    ghost predicate Valid()
      reads this
    {
      |routes| == n
    }

    /** Every route is a valid permutation of the catalog. */
    ghost predicate Permutations(catalog: seq<City>)
      reads this, routes
    {
      forall r :: r in routes ==> r.Valid() && IsPermutationOf(r.cities, catalog)
    }

    /** Every route's caches are coherent with its cities. */
    ghost predicate CachesCoherent(sqrt: real -> real)
      reads this, routes
    {
      forall r :: r in routes ==> r.Coherent(sqrt)
    }

    constructor (routes: seq<Route>)
      ensures this.routes == routes && Valid()
    {
      this.routes := routes;
      n := |routes|;
    }

    /**
     * `initialize_population`: one new route per shuffle; each shuffle is what
     * `random.sample(cities, len(cities))` returns, a permutation of the cities.
     */
    static method InitializePopulation(cities: seq<City>, popsize: nat, shuffles: seq<seq<City>>)
      returns (population: seq<Route>)
      requires |shuffles| == popsize
      requires forall k :: 0 <= k < popsize ==> IsPermutationOf(shuffles[k], cities)
      ensures |population| == popsize
      ensures forall k :: 0 <= k < popsize ==>
        fresh(population[k]) && population[k].Valid() && population[k].cities == shuffles[k]
        && population[k].Unset()
      ensures forall r :: r in population ==> r.Valid() && IsPermutationOf(r.cities, cities)
    {
      population := [];
      for k := 0 to popsize
        invariant |population| == k
        invariant forall q :: 0 <= q < k ==>
          fresh(population[q]) && population[q].Valid() && population[q].cities == shuffles[q]
          && population[q].Unset()
      {
        var route := new Route(shuffles[k]);
        population := population + [route];
      }
    }

    /**
     * `__order_crossover` after the parents are chosen: on a failed coin the
     * two parent objects themselves, otherwise two new routes built by order
     * crossover with the drawn cuts.
     */
    method OrderCrossover(d: PairDraw, ghost catalog: seq<City>) returns (child1: Route, child2: Route)
      requires Valid() && d.parent1 < n && d.parent2 < n
      requires routes[d.parent1].Valid()
      requires d.cross ==>
        1 <= d.jcross1 <= routes[d.parent1].n - 2 && d.jcross1 < d.jcross2 <= routes[d.parent1].n - 1
      ensures !d.cross ==> child1 == routes[d.parent1] && child2 == routes[d.parent2]
      ensures d.cross ==>
        && fresh(child1) && fresh(child2) && child1 != child2 && child1.Valid() && child2.Valid()
        && child1.Unset() && child2.Unset()
        && (child1.cities, child2.cities)
           == Ox.Cross(routes[d.parent1].cities, routes[d.parent2].cities, d.jcross1, d.jcross2)
      ensures old(Distinct(catalog) && Permutations(catalog)) ==>
        && child1.Valid() && IsPermutationOf(child1.cities, catalog)
        && child2.Valid() && IsPermutationOf(child2.cities, catalog)
    {
      var parent1, parent2 := routes[d.parent1], routes[d.parent2];
      if !d.cross {
        return parent1, parent2;
      }
      var children := Ox.Cross(parent1.cities, parent2.cities, d.jcross1, d.jcross2);
      if Distinct(catalog) && Permutations(catalog) {
        Ox.CrossPreservesPermutation(parent1.cities, parent2.cities, catalog, d.jcross1, d.jcross2);
      }
      child1 := new Route(children.0);
      child2 := new Route(children.1);
    }

    /**
     * `child1.mutate(pmutation)` then `child2.mutate(pmutation)`. The two may
     * be routes of this population, or even one route twice; every route stays
     * a permutation of the catalog.
     */
    method MutatePair(child1: Route, child2: Route, d: PairDraw, ghost catalog: seq<City>, ghost sqrt: real -> real)
      requires Permutations(catalog) && ValidSwap(d.mutation1, |catalog|) && ValidSwap(d.mutation2, |catalog|)
      requires child1.Valid() && IsPermutationOf(child1.cities, catalog)
      requires child2.Valid() && IsPermutationOf(child2.cities, catalog)
      modifies child1, child2
      ensures Permutations(catalog)
      ensures child1.Valid() && IsPermutationOf(child1.cities, catalog)
      ensures child2.Valid() && IsPermutationOf(child2.cities, catalog)
      ensures child1 != child2 ==>
        child1.cities == AfterMutation(old(child1.cities), d.mutation1)
        && child2.cities == AfterMutation(old(child2.cities), d.mutation2)
      ensures child1 == child2 ==>
        child1.cities == AfterMutation(AfterMutation(old(child1.cities), d.mutation1), d.mutation2)
      ensures d.mutation1.coin ==> child1.Unset()
      ensures d.mutation2.coin ==> child2.Unset()
      ensures !d.mutation1.coin && (child1 == child2 ==> !d.mutation2.coin) ==>
        child1.travelCost == old(child1.travelCost) && child1.fitness == old(child1.fitness)
      ensures !d.mutation2.coin && (child1 == child2 ==> !d.mutation1.coin) ==>
        child2.travelCost == old(child2.travelCost) && child2.fitness == old(child2.fitness)
      ensures old(child1.Coherent(sqrt) && child2.Coherent(sqrt)) ==> child1.Coherent(sqrt) && child2.Coherent(sqrt)
      ensures old(CachesCoherent(sqrt)) ==> CachesCoherent(sqrt)
    {
      MutateChild(child1, d.mutation1, catalog, sqrt);
      MutateChild(child2, d.mutation2, catalog, sqrt);
    }

    /** `child.mutate(pmutation)` with the swap draw `m`, for a child that may be a route of this population. */
    method MutateChild(child: Route, m: SwapDraw, ghost catalog: seq<City>, ghost sqrt: real -> real)
      requires Permutations(catalog) && ValidSwap(m, |catalog|)
      requires child.Valid() && IsPermutationOf(child.cities, catalog)
      modifies child
      ensures Permutations(catalog)
      ensures child.Valid() && IsPermutationOf(child.cities, catalog)
      ensures child.cities == AfterMutation(old(child.cities), m)
      ensures m.coin ==> child.Unset()
      ensures !m.coin ==> child.travelCost == old(child.travelCost) && child.fitness == old(child.fitness)
      ensures old(child.Coherent(sqrt)) ==> child.Coherent(sqrt)
      ensures old(CachesCoherent(sqrt)) ==> CachesCoherent(sqrt)
    {
      PermutationLength(child.cities, catalog);
      child.Mutate(m.coin, m.i, m.j);
    }

    /**
     * One pass of the `reproduce` loop: order crossover of the drawn parents,
     * then `mutate` on each child. When the coin fails the children are the
     * parent objects, so the mutation happens to routes of this population;
     * when it succeeds the parents are left as they were.
     */
    method Breed(d: PairDraw, ghost catalog: seq<City>, ghost sqrt: real -> real) returns (child1: Route, child2: Route)
      requires Valid() && Distinct(catalog) && Permutations(catalog)
      requires d.parent1 < n && d.parent2 < n && ValidOperatorDraws(d, |catalog|)
      modifies routes[d.parent1], routes[d.parent2]
      ensures Permutations(catalog)
      ensures child1.Valid() && IsPermutationOf(child1.cities, catalog)
      ensures child2.Valid() && IsPermutationOf(child2.cities, catalog)
      ensures d.cross ==> fresh(child1) && fresh(child2)
      ensures !d.cross ==> child1 == routes[d.parent1] && child2 == routes[d.parent2]
      ensures d.cross ==> child1 != child2 && child1.Unset() && child2.Unset()
      ensures d.cross ==> unchanged(routes[d.parent1], routes[d.parent2])
      ensures d.cross ==>
        && |old(routes[d.parent1].cities)| == |catalog|
        && child1.cities == AfterMutation(Ox.Child(old(routes[d.parent1].cities), old(routes[d.parent2].cities), d.jcross1, d.jcross2), d.mutation1)
        && child2.cities == AfterMutation(Ox.Child(old(routes[d.parent2].cities), old(routes[d.parent1].cities), d.jcross1, d.jcross2), d.mutation2)
      ensures !d.cross && child1 != child2 ==>
        && child1.cities == AfterMutation(old(routes[d.parent1].cities), d.mutation1)
        && child2.cities == AfterMutation(old(routes[d.parent2].cities), d.mutation2)
      ensures !d.cross && child1 == child2 ==>
        child1.cities == AfterMutation(AfterMutation(old(routes[d.parent1].cities), d.mutation1), d.mutation2)
      ensures d.mutation1.coin ==> child1.Unset()
      ensures d.mutation2.coin ==> child2.Unset()
      ensures !d.cross && !d.mutation1.coin && (child1 == child2 ==> !d.mutation2.coin) ==>
        child1.travelCost == old(routes[d.parent1].travelCost) && child1.fitness == old(routes[d.parent1].fitness)
      ensures !d.cross && !d.mutation2.coin && (child1 == child2 ==> !d.mutation1.coin) ==>
        child2.travelCost == old(routes[d.parent2].travelCost) && child2.fitness == old(routes[d.parent2].fitness)
      ensures old(CachesCoherent(sqrt)) ==> CachesCoherent(sqrt)
    {
      PermutationLength(routes[d.parent1].cities, catalog);
      child1, child2 := OrderCrossover(d, catalog);
      MutatePair(child1, child2, d, catalog, sqrt);
    }

    /**
     * The body of the `reproduce` loop: breed one pair and append it to the
     * new population. Routes already collected stay valid permutations,
     * including those that are routes of this population mutated again. Only
     * routes of this population change, so any other collected route keeps
     * its caches; new children have unset ones.
     */
    method ExtendPopulation(newPopulation: seq<Route>, d: PairDraw, ghost catalog: seq<City>, ghost sqrt: real -> real)
      returns (extended: seq<Route>)
      requires Valid() && Distinct(catalog) && Permutations(catalog)
      requires d.parent1 < n && d.parent2 < n && ValidOperatorDraws(d, |catalog|)
      requires forall r :: r in newPopulation ==> r.Valid() && IsPermutationOf(r.cities, catalog)
      modifies routes
      ensures Permutations(catalog)
      ensures |extended| == |newPopulation| + 2 && extended[..|newPopulation|] == newPopulation
      ensures forall r :: r in extended ==> r.Valid() && IsPermutationOf(r.cities, catalog)
      ensures d.cross ==> fresh(extended[|newPopulation|]) && fresh(extended[|newPopulation| + 1])
      ensures !d.cross ==>
        extended[|newPopulation|] == routes[d.parent1] && extended[|newPopulation| + 1] == routes[d.parent2]
      ensures d.cross ==> extended[|newPopulation|].Unset() && extended[|newPopulation| + 1].Unset()
      ensures old(CachesCoherent(sqrt)) ==> CachesCoherent(sqrt)
    {
      var child1, child2 := Breed(d, catalog, sqrt);
      extended := newPopulation + [child1, child2];
      forall r | r in newPopulation
        ensures r.Valid() && IsPermutationOf(r.cities, catalog)
      {
        if r !in routes {
          assert unchanged(r);
        }
      }
      assert extended[|newPopulation|] == child1 && extended[|newPopulation| + 1] == child2;
    }

    /**
     * `reproduce`: pairs of children are appended until there are at least
     * `n`, and the list is cut to exactly `n`. A child of a failed crossover
     * coin is the parent object itself, mutated in place, so the same route can
     * appear in both generations and twice in the new one. Every new route is
     * fresh and unset, reset by `mutate`, or an untouched parent, so caches
     * coherent with their cities stay coherent.
     */
    method Reproduce(draws: seq<PairDraw>, ghost catalog: seq<City>, ghost sqrt: real -> real)
      requires Valid() && Distinct(catalog) && Permutations(catalog)
      requires |draws| == (n + 1) / 2
      requires forall q :: 0 <= q < |draws| ==>
        draws[q].parent1 < n && draws[q].parent2 < n && ValidOperatorDraws(draws[q], |catalog|)
      modifies this`routes, routes
      ensures Valid() && Permutations(catalog)
      ensures forall r :: r in routes ==> r in old(routes) || fresh(r)
      ensures forall q :: 0 <= q < |draws| && draws[q].cross ==>
        (2 * q < n ==> fresh(routes[2 * q])) && (2 * q + 1 < n ==> fresh(routes[2 * q + 1]))
      ensures forall q :: 0 <= q < |draws| && !draws[q].cross ==>
        (2 * q < n ==> routes[2 * q] == old(routes)[draws[q].parent1])
        && (2 * q + 1 < n ==> routes[2 * q + 1] == old(routes)[draws[q].parent2])
      ensures old(CachesCoherent(sqrt)) ==> CachesCoherent(sqrt)
    {
      var newPopulation: seq<Route> := [];
      var k := 0;
      while |newPopulation| < n
        invariant |newPopulation| == 2 * k && k <= |draws|
        invariant routes == old(routes) && Valid() && Permutations(catalog)
        invariant forall r :: r in newPopulation ==>
          (r in routes || fresh(r)) && r.Valid() && IsPermutationOf(r.cities, catalog)
        invariant forall q :: 0 <= q < k && draws[q].cross ==>
          fresh(newPopulation[2 * q]) && fresh(newPopulation[2 * q + 1])
        invariant forall q :: 0 <= q < k && !draws[q].cross ==>
          newPopulation[2 * q] == routes[draws[q].parent1] && newPopulation[2 * q + 1] == routes[draws[q].parent2]
        invariant old(CachesCoherent(sqrt)) ==>
          CachesCoherent(sqrt) && forall r :: r in newPopulation ==> r.Coherent(sqrt)
        decreases n - |newPopulation|
      {
        ghost var collected := newPopulation;
        newPopulation := ExtendPopulation(newPopulation, draws[k], catalog, sqrt);
        assert newPopulation == collected + [newPopulation[2 * k], newPopulation[2 * k + 1]];
        k := k + 1;
      }
      routes := newPopulation[..n];
    }
  }
}
