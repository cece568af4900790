/**
 * The generation loop of the function-maximising engine
 * (GenMax/GenMax/GenMax.py, `initialize_population` and
 * `genetic_algorithm`): evaluate the population, record the maximum,
 * minimum and mean fitness, and breed the next population pair by pair
 * with roulette selection, crossover and mutation.
 *
 * Each method is proved against a specification function of the same
 * step; the lemmas at the end state what a whole run promises.
 */
module GenMaxRun {
  import opened Binary
  import opened Stats
  import opened GenMax

  /** The random draws one pair of children consumes, in the order the source draws them. */
  datatype PairDraw = PairDraw(
    pick1: real,        // `random.random()` spinning the wheel for the first parent
    pick2: real,        // the same for the second parent
    crossCoin: real,    // `flip(pcross)`
    jcross: int,        // `rnd(1, lchrom - 1)`, drawn only when the coin comes up
    coins1: seq<real>,  // one `flip(pmutation)` per gene of the first child
    coins2: seq<real>)  // the same for the second child

  /** Draws that `randint` and the mutation loops could have produced. */
  predicate ValidPairDraw(d: PairDraw, lchrom: nat, pcross: real)
  {
    (Flip(d.crossCoin, pcross) && lchrom >= 2 ==> 1 <= d.jcross <= lchrom - 1)
    && |d.coins1| == lchrom && |d.coins2| == lchrom
  }

  /** Every chromosome is a bit string of length `lchrom`. */
  predicate Chromosomes(population: seq<Individual>, lchrom: nat)
  {
    forall i :: 0 <= i < |population| ==>
      IsBits(population[i].chromosome) && |population[i].chromosome| == lchrom
  }

  /** The history `genetic_algorithm` hands to the plot. */
  datatype History = History(maxFitness: seq<real>, minFitness: seq<real>, avgFitness: seq<real>)

  /** Every recorded generation has `min <= avg <= max`. */
  predicate Ordered(h: History)
  {
    |h.maxFitness| == |h.minFitness| == |h.avgFitness|
    && forall g :: 0 <= g < |h.maxFitness| ==>
      h.minFitness[g] <= h.avgFitness[g] <= h.maxFitness[g]
  }

  /** Every recorded minimum is at least `lo` and every recorded maximum at most `hi`. */
  predicate Bounded(h: History, lo: real, hi: real)
  {
    |h.maxFitness| == |h.minFitness|
    && forall g :: 0 <= g < |h.maxFitness| ==> lo <= h.minFitness[g] && h.maxFitness[g] <= hi
  }

  // ---------------------------------------------------------------------------
  // Initial population

  /** `initialize_population` on the drawn chromosomes, scored with the module's own fitness function. */
  function Initial(genes: seq<seq<int>>, xMin: int, xMax: int): (population: seq<Individual>)
    requires forall i :: 0 <= i < |genes| ==> IsBits(genes[i]) && |genes[i]| >= 1
    ensures |population| == |genes|
    ensures forall i :: 0 <= i < |genes| ==> population[i].chromosome == genes[i]
  {
    seq(|genes|, i requires 0 <= i < |genes| => Individual(genes[i], FitnessOf(Decode(genes[i], xMin, xMax))))
  }

  /**
   * `initialize_population`: `genes[i]` is the `i`-th `random.choices([0, 1],
   * k=lchrom)`. Decoding an empty chromosome is `int('', 2)`, which raises
   * `ValueError`. The fitness is the module-level `fitness_function`, not
   * the one `genetic_algorithm` was given.
   */
  method InitializePopulation(popsize: nat, lchrom: nat, xMin: int, xMax: int, genes: seq<seq<int>>)
    returns (r: Result<seq<Individual>>)
    requires |genes| == popsize
    requires forall i :: 0 <= i < popsize ==> IsBits(genes[i]) && |genes[i]| == lchrom
    ensures r.ValueError? <==> popsize >= 1 && lchrom == 0
    ensures r.Ok? ==> |r.value| == popsize && Chromosomes(r.value, lchrom)
    ensures r.Ok? ==> forall i :: 0 <= i < popsize ==>
      r.value[i].chromosome == genes[i] && r.value[i].fitness == FitnessOf(Decode(genes[i], xMin, xMax))
    ensures r.Ok? ==> r.value == Initial(genes, xMin, xMax)
  {
    var population := [];
    for i := 0 to popsize
      invariant |population| == i
      invariant i >= 1 ==> lchrom >= 1
      invariant forall k :: 0 <= k < i ==>
        population[k] == Individual(genes[k], FitnessOf(Decode(genes[k], xMin, xMax)))
    {
      var chromosome := genes[i];
      if |chromosome| == 0 {
        return ValueError;
      }
      var decodedValue := Decode(chromosome, xMin, xMax);
      population := population + [Individual(chromosome, FitnessOf(decodedValue))];
    }
    return Ok(population);
  }

  // ---------------------------------------------------------------------------
  // Evaluation

  /** Every individual re-scored by `fitness` of its decoded chromosome. */
  function Evaluated(population: seq<Individual>, fitness: int -> real, xMin: int, xMax: int)
    : (evaluated: seq<Individual>)
    requires forall i :: 0 <= i < |population| ==>
      IsBits(population[i].chromosome) && |population[i].chromosome| >= 1
    ensures |evaluated| == |population|
    ensures forall i :: 0 <= i < |population| ==> evaluated[i].chromosome == population[i].chromosome
  {
    seq(|population|, i requires 0 <= i < |population| =>
      Individual(population[i].chromosome, fitness(Decode(population[i].chromosome, xMin, xMax))))
  }

  /**
   * The evaluation loop at the top of each generation: stores each
   * individual's fitness in place and accumulates `fitness_sum`.
   */
  method Evaluate(population: seq<Individual>, fitness: int -> real, xMin: int, xMax: int)
    returns (evaluated: seq<Individual>, fitnessSum: real)
    requires forall i :: 0 <= i < |population| ==>
      IsBits(population[i].chromosome) && |population[i].chromosome| >= 1
    ensures |evaluated| == |population|
    ensures forall i :: 0 <= i < |population| ==>
      evaluated[i].chromosome == population[i].chromosome
      && evaluated[i].fitness == fitness(Decode(population[i].chromosome, xMin, xMax))
    ensures fitnessSum == Sum(Fitnesses(evaluated))
    ensures evaluated == Evaluated(population, fitness, xMin, xMax)
  {
    evaluated := population;
    fitnessSum := 0.0;
    for i := 0 to |population|
      invariant |evaluated| == |population|
      invariant forall k :: 0 <= k < i ==>
        evaluated[k] == Individual(population[k].chromosome, fitness(Decode(population[k].chromosome, xMin, xMax)))
      invariant forall k :: i <= k < |population| ==> evaluated[k] == population[k]
      invariant fitnessSum == Sum(Fitnesses(evaluated)[..i])
    {
      ghost var before := evaluated;
      var decodedValue := Decode(evaluated[i].chromosome, xMin, xMax);
      var f := fitness(decodedValue);
      evaluated := evaluated[i := Individual(evaluated[i].chromosome, f)];
      fitnessSum := fitnessSum + f;
      assert Fitnesses(evaluated)[..i] == Fitnesses(before)[..i];
      SumStep(Fitnesses(evaluated), i);
    }
    assert Fitnesses(evaluated)[..|population|] == Fitnesses(evaluated);
  }

  // ---------------------------------------------------------------------------
  // Breeding

  /** Crossover of two parents followed by mutation of each child. */
  function Mate(parent1: seq<int>, parent2: seq<int>, lchrom: nat, pcross: real, pmutation: real, d: PairDraw)
    : (r: Result<(seq<int>, seq<int>)>)
    requires IsBits(parent1) && |parent1| == lchrom && IsBits(parent2) && |parent2| == lchrom
    requires ValidPairDraw(d, lchrom, pcross)
    ensures r.ValueError? <==> Flip(d.crossCoin, pcross) && lchrom < 2
    ensures r.Ok? ==> IsBits(r.value.0) && |r.value.0| == lchrom && IsBits(r.value.1) && |r.value.1| == lchrom
  {
    var crossed := Crossover(parent1, parent2, lchrom, pcross, d.crossCoin, d.jcross);
    if crossed.ValueError? then ValueError
    else Ok((Flipped(crossed.value.0, pmutation, d.coins1), Flipped(crossed.value.1, pmutation, d.coins2)))
  }

  /**
   * One pass of the breeding loop: two spins of the wheel, then crossover of
   * the two chromosomes and mutation of each child.
   */
  function Breed(population: seq<Individual>, fitnessSum: real, lchrom: nat, pcross: real, pmutation: real, d: PairDraw)
    : (r: Result<(seq<int>, seq<int>)>)
    requires |population| >= 1 && Chromosomes(population, lchrom) && ValidPairDraw(d, lchrom, pcross)
    ensures r.ValueError? <==> Flip(d.crossCoin, pcross) && lchrom < 2
    ensures r.Ok? ==> IsBits(r.value.0) && |r.value.0| == lchrom && IsBits(r.value.1) && |r.value.1| == lchrom
  {
    Mate(Spin(population, fitnessSum, d.pick1), Spin(population, fitnessSum, d.pick2), lchrom, pcross, pmutation, d)
  }

  /** Some crossover coin among `draws` comes up. */
  predicate AnyFlip(draws: seq<PairDraw>, pcross: real)
    decreases |draws|
  {
    draws != [] && (AnyFlip(draws[..|draws| - 1], pcross) || Flip(draws[|draws| - 1].crossCoin, pcross))
  }

  /** `AnyFlip` is the existential it names. */
  lemma {:induction false} AnyFlipExists(draws: seq<PairDraw>, pcross: real)
    ensures AnyFlip(draws, pcross) <==> exists q :: 0 <= q < |draws| && Flip(draws[q].crossCoin, pcross)
    decreases |draws|
  {
    if draws != [] {
      var last := |draws| - 1;
      AnyFlipExists(draws[..last], pcross);
      if exists q :: 0 <= q < |draws| && Flip(draws[q].crossCoin, pcross) {
        var q :| 0 <= q < |draws| && Flip(draws[q].crossCoin, pcross);
        if q < last {
          assert draws[..last][q] == draws[q];
        }
      }
      if exists q :: 0 <= q < last && Flip(draws[..last][q].crossCoin, pcross) {
        var q :| 0 <= q < last && Flip(draws[..last][q].crossCoin, pcross);
        assert draws[..last][q] == draws[q];
      }
    }
  }

  /** A coin that comes up in a prefix comes up in the whole. */
  lemma {:induction false} AnyFlipPrefix(draws: seq<PairDraw>, k: nat, pcross: real)
    requires k <= |draws| && AnyFlip(draws[..k], pcross)
    ensures AnyFlip(draws, pcross)
    decreases |draws| - k
  {
    if k < |draws| {
      assert draws[..k + 1][..k] == draws[..k];
      AnyFlipPrefix(draws, k + 1, pcross);
    } else {
      assert draws[..k] == draws;
    }
  }

  /** The children of the pairs bred with `draws`, in order, each with the placeholder fitness 0. */
  function Bred(population: seq<Individual>, fitnessSum: real, lchrom: nat, pcross: real, pmutation: real,
                draws: seq<PairDraw>): (r: Result<seq<Individual>>)
    requires |population| >= 1 && Chromosomes(population, lchrom)
    requires forall q :: 0 <= q < |draws| ==> ValidPairDraw(draws[q], lchrom, pcross)
    ensures r.ValueError? <==> lchrom < 2 && AnyFlip(draws, pcross)
    ensures r.Ok? ==> |r.value| == 2 * |draws| && Chromosomes(r.value, lchrom)
    decreases |draws|
  {
    if draws == [] then Ok([])
    else
      var last := |draws| - 1;
      var earlier := Bred(population, fitnessSum, lchrom, pcross, pmutation, draws[..last]);
      if earlier.ValueError? then ValueError
      else
        var children := Breed(population, fitnessSum, lchrom, pcross, pmutation, draws[last]);
        if children.ValueError? then ValueError
        else Ok(earlier.value + [Individual(children.value.0, 0.0), Individual(children.value.1, 0.0)])
  }

  /** Every bred child carries the placeholder fitness 0 until the next evaluation. */
  lemma {:induction false} BredPlaceholders(population: seq<Individual>, fitnessSum: real, lchrom: nat, pcross: real,
                                            pmutation: real, draws: seq<PairDraw>)
    requires |population| >= 1 && Chromosomes(population, lchrom)
    requires forall q :: 0 <= q < |draws| ==> ValidPairDraw(draws[q], lchrom, pcross)
    ensures var r := Bred(population, fitnessSum, lchrom, pcross, pmutation, draws);
      r.Ok? ==> forall i :: 0 <= i < |r.value| ==> r.value[i].fitness == 0.0
    decreases |draws|
  {
    if draws != [] {
      BredPlaceholders(population, fitnessSum, lchrom, pcross, pmutation, draws[..|draws| - 1]);
    }
  }

  /**
   * The population of the next generation: the pairs bred while fewer than
   * `popsize` children exist, cut back to `popsize` (one child of the last
   * pair is dropped when `popsize` is odd).
   */
  function Offspring(population: seq<Individual>, fitnessSum: real, popsize: nat, lchrom: nat, pcross: real,
                     pmutation: real, draws: seq<PairDraw>): (r: Result<seq<Individual>>)
    requires |population| == popsize >= 1 && Chromosomes(population, lchrom)
    requires |draws| == (popsize + 1) / 2
    requires forall q :: 0 <= q < |draws| ==> ValidPairDraw(draws[q], lchrom, pcross)
    ensures r.ValueError? <==> lchrom < 2 && AnyFlip(draws, pcross)
    ensures r.Ok? ==> |r.value| == popsize && Chromosomes(r.value, lchrom)
  {
    var children := Bred(population, fitnessSum, lchrom, pcross, pmutation, draws);
    if children.ValueError? then ValueError else Ok(children.value[..popsize])
  }

  /** The next population is unevaluated: every fitness is the placeholder 0. */
  lemma OffspringPlaceholders(population: seq<Individual>, fitnessSum: real, popsize: nat, lchrom: nat, pcross: real,
                              pmutation: real, draws: seq<PairDraw>)
    requires |population| == popsize >= 1 && Chromosomes(population, lchrom)
    requires |draws| == (popsize + 1) / 2
    requires forall q :: 0 <= q < |draws| ==> ValidPairDraw(draws[q], lchrom, pcross)
    ensures var r := Offspring(population, fitnessSum, popsize, lchrom, pcross, pmutation, draws);
      r.Ok? ==> forall i :: 0 <= i < popsize ==> r.value[i].fitness == 0.0
  {
    BredPlaceholders(population, fitnessSum, lchrom, pcross, pmutation, draws);
  }

  /**
   * The body of the breeding loop: two spins of the wheel, crossover, and
   * each child (a fresh list) mutated in place.
   */
  method BreedPair(population: seq<Individual>, fitnessSum: real, lchrom: nat, pcross: real, pmutation: real,
                   d: PairDraw) returns (r: Result<(seq<int>, seq<int>)>)
    requires |population| >= 1 && Chromosomes(population, lchrom) && ValidPairDraw(d, lchrom, pcross)
    ensures r == Breed(population, fitnessSum, lchrom, pcross, pmutation, d)
  {
    var parent1 := RouletteWheelSelection(population, fitnessSum, d.pick1);
    var parent2 := RouletteWheelSelection(population, fitnessSum, d.pick2);
    r := MatePair(parent1, parent2, lchrom, pcross, pmutation, d);
  }

  /** Crossover of the two parents, then each child (a fresh list) mutated in place. */
  method MatePair(parent1: seq<int>, parent2: seq<int>, lchrom: nat, pcross: real, pmutation: real, d: PairDraw)
    returns (r: Result<(seq<int>, seq<int>)>)
    requires IsBits(parent1) && |parent1| == lchrom && IsBits(parent2) && |parent2| == lchrom
    requires ValidPairDraw(d, lchrom, pcross)
    ensures r == Mate(parent1, parent2, lchrom, pcross, pmutation, d)
  {
    var crossed := Crossover(parent1, parent2, lchrom, pcross, d.crossCoin, d.jcross);
    if crossed.ValueError? {
      return ValueError;
    }
    var (c1, c2) := crossed.value;
    var child1 := new int[|c1|](i requires 0 <= i < |c1| => c1[i]);
    var child2 := new int[|c2|](i requires 0 <= i < |c2| => c2[i]);
    assert child1[..] == c1 && child2[..] == c2;
    Mutate(child1, pmutation, d.coins1);
    Mutate(child2, pmutation, d.coins2);
    r := Ok((child1[..], child2[..]));
  }

  /** The breeding loop of one generation: `while len(new_population) < popsize`, then the cut. */
  method NextGeneration(population: seq<Individual>, fitnessSum: real, popsize: nat, lchrom: nat, pcross: real,
                        pmutation: real, draws: seq<PairDraw>) returns (r: Result<seq<Individual>>)
    requires |population| == popsize >= 1 && Chromosomes(population, lchrom)
    requires |draws| == (popsize + 1) / 2
    requires forall q :: 0 <= q < |draws| ==> ValidPairDraw(draws[q], lchrom, pcross)
    ensures r == Offspring(population, fitnessSum, popsize, lchrom, pcross, pmutation, draws)
  {
    var newPopulation := [];
    var k := 0;
    while |newPopulation| < popsize
      invariant 0 <= k <= |draws| && |newPopulation| == 2 * k
      invariant 2 * k <= popsize + 1
      invariant Bred(population, fitnessSum, lchrom, pcross, pmutation, draws[..k]) == Ok(newPopulation)
      decreases popsize - |newPopulation|
    {
      var children := BreedPair(population, fitnessSum, lchrom, pcross, pmutation, draws[k]);
      if children.ValueError? {
        assert draws[..k + 1][k] == draws[k] && draws[..k + 1][..k] == draws[..k];
        AnyFlipPrefix(draws, k + 1, pcross);
        return ValueError;
      }
      BredStep(population, fitnessSum, lchrom, pcross, pmutation, draws, k, newPopulation,
               children.value.0, children.value.1);
      newPopulation := newPopulation + [Individual(children.value.0, 0.0), Individual(children.value.1, 0.0)];
      k := k + 1;
    }
    assert draws[..k] == draws;
    r := Ok(newPopulation[..popsize]);
  }

  /** Breeding one more pair appends its two children. */
  lemma BredStep(population: seq<Individual>, fitnessSum: real, lchrom: nat, pcross: real, pmutation: real,
                 draws: seq<PairDraw>, k: nat, earlier: seq<Individual>, child1: seq<int>, child2: seq<int>)
    requires |population| >= 1 && Chromosomes(population, lchrom)
    requires forall q :: 0 <= q < |draws| ==> ValidPairDraw(draws[q], lchrom, pcross)
    requires k < |draws|
    requires Bred(population, fitnessSum, lchrom, pcross, pmutation, draws[..k]) == Ok(earlier)
    requires Breed(population, fitnessSum, lchrom, pcross, pmutation, draws[k]) == Ok((child1, child2))
    ensures Bred(population, fitnessSum, lchrom, pcross, pmutation, draws[..k + 1])
      == Ok(earlier + [Individual(child1, 0.0), Individual(child2, 0.0)])
  {
    assert draws[..k + 1][..k] == draws[..k];
  }

  // ---------------------------------------------------------------------------
  // The run

  /** One list of pair draws per generation, each as long as the breeding loop runs. */
  predicate DrawsFit(draws: seq<seq<PairDraw>>, popsize: nat, lchrom: nat, pcross: real)
  {
    forall g :: 0 <= g < |draws| ==>
      |draws[g]| == (popsize + 1) / 2
      && forall q :: 0 <= q < |draws[g]| ==> ValidPairDraw(draws[g][q], lchrom, pcross)
  }

  /** Some crossover coin of some generation comes up. */
  predicate AnyCross(draws: seq<seq<PairDraw>>, pcross: real)
    decreases |draws|
  {
    draws != [] && (AnyFlip(draws[0], pcross) || AnyCross(draws[1..], pcross))
  }

  /** One generation's statistics in front of the later ones'. */
  function Prepend(maxFitness: real, minFitness: real, avgFitness: real, rest: Result<History>): (r: Result<History>)
    ensures r.ValueError? <==> rest.ValueError?
  {
    match rest
    case ValueError => ValueError
    case Ok(h) => Ok(History([maxFitness] + h.maxFitness, [minFitness] + h.minFitness, [avgFitness] + h.avgFitness))
  }

  /** A recorded history followed by the history of the rest of the run. */
  function Append(h: History, rest: Result<History>): (r: Result<History>)
    ensures r.ValueError? <==> rest.ValueError?
  {
    match rest
    case ValueError => ValueError
    case Ok(t) => Ok(History(h.maxFitness + t.maxFitness, h.minFitness + t.minFitness, h.avgFitness + t.avgFitness))
  }

  /**
   * The history of the generations still to run from `population`, one list
   * of draws each: evaluate, record `max`, `min` and `sum / popsize` (where
   * `max([])` raises `ValueError` for an empty population), breed.
   */
  function Evolve(population: seq<Individual>, fitness: int -> real, xMin: int, xMax: int, popsize: nat,
                  lchrom: nat, pcross: real, pmutation: real, draws: seq<seq<PairDraw>>): (r: Result<History>)
    requires |population| == popsize && Chromosomes(population, lchrom) && (popsize >= 1 ==> lchrom >= 1)
    requires DrawsFit(draws, popsize, lchrom, pcross)
    decreases |draws|
  {
    if draws == [] then Ok(History([], [], []))
    else if popsize == 0 then ValueError
    else
      var evaluated := Evaluated(population, fitness, xMin, xMax);
      var fits := Fitnesses(evaluated);
      match Offspring(evaluated, Sum(fits), popsize, lchrom, pcross, pmutation, draws[0])
      case ValueError => ValueError
      case Ok(next) =>
        Prepend(Max(fits), Min(fits), Sum(fits) / popsize as real,
                Evolve(next, fitness, xMin, xMax, popsize, lchrom, pcross, pmutation, draws[1..]))
  }

  /** `genetic_algorithm` up to the plot: initialise, then run every generation. */
  function Run(fitness: int -> real, xMin: int, xMax: int, popsize: nat, lchrom: nat, pcross: real,
               pmutation: real, genes: seq<seq<int>>, draws: seq<seq<PairDraw>>): Result<History>
    requires |genes| == popsize && forall i :: 0 <= i < popsize ==> IsBits(genes[i]) && |genes[i]| == lchrom
    requires DrawsFit(draws, popsize, lchrom, pcross)
  {
    if popsize >= 1 && lchrom == 0 then ValueError
    else Evolve(Initial(genes, xMin, xMax), fitness, xMin, xMax, popsize, lchrom, pcross, pmutation, draws)
  }

  /**
   * `genetic_algorithm`, returning the history it would plot. `genes` are the
   * initial chromosomes and `draws[g]` the draws of generation `g`.
   */
  method GeneticAlgorithm(fitness: int -> real, xMin: int, xMax: int, popsize: nat, generations: nat, lchrom: nat,
                          pcross: real, pmutation: real, genes: seq<seq<int>>, draws: seq<seq<PairDraw>>)
    returns (r: Result<History>)
    requires |genes| == popsize && forall i :: 0 <= i < popsize ==> IsBits(genes[i]) && |genes[i]| == lchrom
    requires |draws| == generations && DrawsFit(draws, popsize, lchrom, pcross)
    ensures r == Run(fitness, xMin, xMax, popsize, lchrom, pcross, pmutation, genes, draws)
  {
    var init := InitializePopulation(popsize, lchrom, xMin, xMax, genes);
    if init.ValueError? {
      return ValueError;
    }
    r := Generations(init.value, fitness, xMin, xMax, popsize, lchrom, pcross, pmutation, draws);
  }

  /**
   * The `for generation in range(generations)` loop of `genetic_algorithm`,
   * appending one entry per generation to each history list.
   */
  method Generations(population: seq<Individual>, fitness: int -> real, xMin: int, xMax: int, popsize: nat,
                     lchrom: nat, pcross: real, pmutation: real, draws: seq<seq<PairDraw>>)
    returns (r: Result<History>)
    requires |population| == popsize && Chromosomes(population, lchrom) && (popsize >= 1 ==> lchrom >= 1)
    requires DrawsFit(draws, popsize, lchrom, pcross)
    ensures r == Evolve(population, fitness, xMin, xMax, popsize, lchrom, pcross, pmutation, draws)
  {
    ghost var total := Evolve(population, fitness, xMin, xMax, popsize, lchrom, pcross, pmutation, draws);
    var current := population;
    var history := History([], [], []);
    AppendEmpty(total);
    assert draws[0..] == draws;
    for generation := 0 to |draws|
      invariant |current| == popsize && Chromosomes(current, lchrom)
      invariant total == Append(history, Evolve(current, fitness, xMin, xMax, popsize, lchrom, pcross, pmutation,
                                                draws[generation..]))
    {
      if popsize == 0 {
        return ValueError;
      }
      var rest := draws[generation..];
      var maxFitness, minFitness, avgFitness, next :=
        Generation(current, fitness, xMin, xMax, popsize, lchrom, pcross, pmutation, rest);
      if next.ValueError? {
        return ValueError;
      }
      assert rest[1..] == draws[generation + 1..];
      AppendPrepend(history, maxFitness, minFitness, avgFitness,
                    Evolve(next.value, fitness, xMin, xMax, popsize, lchrom, pcross, pmutation, rest[1..]));
      history := History(history.maxFitness + [maxFitness], history.minFitness + [minFitness],
                         history.avgFitness + [avgFitness]);
      current := next.value;
    }
    assert draws[|draws|..] == [];
    AppendNothing(history);
    r := Ok(history);
  }

  /**
   * One pass of the generation loop: evaluate, take the statistics and breed
   * the next population from the first generation's draws. What is left of
   * the run is the statistics followed by the run from the next population.
   */
  method Generation(population: seq<Individual>, fitness: int -> real, xMin: int, xMax: int, popsize: nat,
                    lchrom: nat, pcross: real, pmutation: real, draws: seq<seq<PairDraw>>)
    returns (maxFitness: real, minFitness: real, avgFitness: real, next: Result<seq<Individual>>)
    requires |population| == popsize >= 1 && Chromosomes(population, lchrom) && lchrom >= 1
    requires |draws| >= 1 && DrawsFit(draws, popsize, lchrom, pcross)
    ensures next.ValueError? ==>
      Evolve(population, fitness, xMin, xMax, popsize, lchrom, pcross, pmutation, draws).ValueError?
    ensures next.Ok? ==> |next.value| == popsize && Chromosomes(next.value, lchrom)
    ensures next.Ok? ==>
      Evolve(population, fitness, xMin, xMax, popsize, lchrom, pcross, pmutation, draws)
      == Prepend(maxFitness, minFitness, avgFitness,
                 Evolve(next.value, fitness, xMin, xMax, popsize, lchrom, pcross, pmutation, draws[1..]))
  {
    var evaluated, fitnessSum := Evaluate(population, fitness, xMin, xMax);
    var fitnessValues := Fitnesses(evaluated);
    maxFitness, minFitness, avgFitness := Max(fitnessValues), Min(fitnessValues), fitnessSum / popsize as real;
    next := NextGeneration(evaluated, fitnessSum, popsize, lchrom, pcross, pmutation, draws[0]);
  }

  lemma AppendEmpty(rest: Result<History>)
    ensures Append(History([], [], []), rest) == rest
  {
    if rest.Ok? {
      assert [] + rest.value.maxFitness == rest.value.maxFitness;
      assert [] + rest.value.minFitness == rest.value.minFitness;
      assert [] + rest.value.avgFitness == rest.value.avgFitness;
    }
  }

  lemma AppendNothing(h: History)
    ensures Append(h, Ok(History([], [], []))) == Ok(h)
  {
    assert h.maxFitness + [] == h.maxFitness;
    assert h.minFitness + [] == h.minFitness;
    assert h.avgFitness + [] == h.avgFitness;
  }

  lemma AppendPrepend(h: History, maxFitness: real, minFitness: real, avgFitness: real, rest: Result<History>)
    ensures Append(h, Prepend(maxFitness, minFitness, avgFitness, rest))
      == Append(History(h.maxFitness + [maxFitness], h.minFitness + [minFitness], h.avgFitness + [avgFitness]), rest)
  {
    if rest.Ok? {
      assert h.maxFitness + ([maxFitness] + rest.value.maxFitness) == (h.maxFitness + [maxFitness]) + rest.value.maxFitness;
      assert h.minFitness + ([minFitness] + rest.value.minFitness) == (h.minFitness + [minFitness]) + rest.value.minFitness;
      assert h.avgFitness + ([avgFitness] + rest.value.avgFitness) == (h.avgFitness + [avgFitness]) + rest.value.avgFitness;
    }
  }

  // ---------------------------------------------------------------------------
  // What a run promises

  /**
   * A run fails exactly when a generation meets an empty population
   * (`max([])`) or a crossover coin comes up with chromosomes too short to
   * cut.
   */
  lemma {:induction false} EvolveFails(population: seq<Individual>, fitness: int -> real, xMin: int, xMax: int,
                                       popsize: nat, lchrom: nat, pcross: real, pmutation: real,
                                       draws: seq<seq<PairDraw>>)
    requires |population| == popsize && Chromosomes(population, lchrom) && (popsize >= 1 ==> lchrom >= 1)
    requires DrawsFit(draws, popsize, lchrom, pcross)
    ensures Evolve(population, fitness, xMin, xMax, popsize, lchrom, pcross, pmutation, draws).ValueError?
      <==> |draws| >= 1 && (popsize == 0 || (lchrom < 2 && AnyCross(draws, pcross)))
    decreases |draws|
  {
    if draws != [] && popsize >= 1 {
      var evaluated := Evaluated(population, fitness, xMin, xMax);
      var o := Offspring(evaluated, Sum(Fitnesses(evaluated)), popsize, lchrom, pcross, pmutation, draws[0]);
      if o.Ok? {
        EvolveFails(o.value, fitness, xMin, xMax, popsize, lchrom, pcross, pmutation, draws[1..]);
      }
    }
  }

  /** A run that completes records one `min <= avg <= max` triple per generation. */
  lemma {:induction false} EvolveHistory(population: seq<Individual>, fitness: int -> real, xMin: int, xMax: int,
                                         popsize: nat, lchrom: nat, pcross: real, pmutation: real,
                                         draws: seq<seq<PairDraw>>)
    requires |population| == popsize && Chromosomes(population, lchrom) && (popsize >= 1 ==> lchrom >= 1)
    requires DrawsFit(draws, popsize, lchrom, pcross)
    ensures var r := Evolve(population, fitness, xMin, xMax, popsize, lchrom, pcross, pmutation, draws);
      r.Ok? ==> |r.value.maxFitness| == |draws| && Ordered(r.value)
    decreases |draws|
  {
    if draws != [] && popsize >= 1 {
      var evaluated := Evaluated(population, fitness, xMin, xMax);
      var fits := Fitnesses(evaluated);
      var o := Offspring(evaluated, Sum(fits), popsize, lchrom, pcross, pmutation, draws[0]);
      if o.Ok? {
        EvolveHistory(o.value, fitness, xMin, xMax, popsize, lchrom, pcross, pmutation, draws[1..]);
        MeanBetween(fits);
        PrependOrdered(Max(fits), Min(fits), Sum(fits) / popsize as real,
                       Evolve(o.value, fitness, xMin, xMax, popsize, lchrom, pcross, pmutation, draws[1..]));
      }
    }
  }

  /**
   * Bounds of the fitness function on the decoding range bound every
   * recorded minimum from below and every recorded maximum from above.
   */
  lemma {:induction false} EvolveBounds(population: seq<Individual>, fitness: int -> real, xMin: int, xMax: int,
                                        popsize: nat, lchrom: nat, pcross: real, pmutation: real,
                                        draws: seq<seq<PairDraw>>, lo: real, hi: real)
    requires |population| == popsize && Chromosomes(population, lchrom) && (popsize >= 1 ==> lchrom >= 1)
    requires DrawsFit(draws, popsize, lchrom, pcross)
    requires xMin <= xMax && forall x :: xMin <= x <= xMax ==> lo <= fitness(x) <= hi
    ensures var r := Evolve(population, fitness, xMin, xMax, popsize, lchrom, pcross, pmutation, draws);
      r.Ok? ==> |r.value.maxFitness| == |draws| && Bounded(r.value, lo, hi)
    decreases |draws|
  {
    if draws != [] && popsize >= 1 {
      var evaluated := Evaluated(population, fitness, xMin, xMax);
      var fits := Fitnesses(evaluated);
      var o := Offspring(evaluated, Sum(fits), popsize, lchrom, pcross, pmutation, draws[0]);
      if o.Ok? {
        EvolveBounds(o.value, fitness, xMin, xMax, popsize, lchrom, pcross, pmutation, draws[1..], lo, hi);
        FitnessesWithin(population, fitness, xMin, xMax, lo, hi);
        MaxMinWithin(fits, lo, hi);
        PrependBounded(Max(fits), Min(fits), Sum(fits) / popsize as real,
                       Evolve(o.value, fitness, xMin, xMax, popsize, lchrom, pcross, pmutation, draws[1..]), lo, hi);
      }
    }
  }

  lemma PrependOrdered(maxFitness: real, minFitness: real, avgFitness: real, rest: Result<History>)
    requires minFitness <= avgFitness <= maxFitness
    requires rest.Ok? ==> Ordered(rest.value)
    ensures var r := Prepend(maxFitness, minFitness, avgFitness, rest);
      r.Ok? ==> |r.value.maxFitness| == |rest.value.maxFitness| + 1 && Ordered(r.value)
  {
    if rest.Ok? {
      var h := Prepend(maxFitness, minFitness, avgFitness, rest).value;
      forall g | 0 <= g < |h.maxFitness| ensures h.minFitness[g] <= h.avgFitness[g] <= h.maxFitness[g] {
        if g > 0 {
          assert h.minFitness[g] == rest.value.minFitness[g - 1];
          assert h.avgFitness[g] == rest.value.avgFitness[g - 1];
          assert h.maxFitness[g] == rest.value.maxFitness[g - 1];
        }
      }
    }
  }

  lemma PrependBounded(maxFitness: real, minFitness: real, avgFitness: real, rest: Result<History>, lo: real, hi: real)
    requires lo <= minFitness && maxFitness <= hi
    requires rest.Ok? ==> Bounded(rest.value, lo, hi)
    ensures var r := Prepend(maxFitness, minFitness, avgFitness, rest);
      r.Ok? ==> |r.value.maxFitness| == |rest.value.maxFitness| + 1 && Bounded(r.value, lo, hi)
  {
    if rest.Ok? {
      var h := Prepend(maxFitness, minFitness, avgFitness, rest).value;
      forall g | 0 <= g < |h.maxFitness| ensures lo <= h.minFitness[g] && h.maxFitness[g] <= hi {
        if g > 0 {
          assert h.minFitness[g] == rest.value.minFitness[g - 1];
          assert h.maxFitness[g] == rest.value.maxFitness[g - 1];
        }
      }
    }
  }

  /** Bounds of the fitness function on the decoding range bound every evaluated fitness. */
  lemma FitnessesWithin(population: seq<Individual>, fitness: int -> real, xMin: int, xMax: int, lo: real, hi: real)
    requires forall i :: 0 <= i < |population| ==>
      IsBits(population[i].chromosome) && |population[i].chromosome| >= 1
    requires xMin <= xMax && forall x :: xMin <= x <= xMax ==> lo <= fitness(x) <= hi
    ensures var fits := Fitnesses(Evaluated(population, fitness, xMin, xMax));
      forall i :: 0 <= i < |fits| ==> lo <= fits[i] <= hi
  {
    var fits := Fitnesses(Evaluated(population, fitness, xMin, xMax));
    forall i | 0 <= i < |fits| ensures lo <= fits[i] <= hi {
      var x := Decode(population[i].chromosome, xMin, xMax);
      assert fits[i] == fitness(x);
    }
  }

  /** `EvolveBounds` for a whole run from its initial chromosomes. */
  lemma RunBounds(fitness: int -> real, xMin: int, xMax: int, popsize: nat, lchrom: nat, pcross: real,
                  pmutation: real, genes: seq<seq<int>>, draws: seq<seq<PairDraw>>, lo: real, hi: real)
    requires |genes| == popsize && forall i :: 0 <= i < popsize ==> IsBits(genes[i]) && |genes[i]| == lchrom
    requires DrawsFit(draws, popsize, lchrom, pcross)
    requires xMin <= xMax && forall x :: xMin <= x <= xMax ==> lo <= fitness(x) <= hi
    ensures var r := Run(fitness, xMin, xMax, popsize, lchrom, pcross, pmutation, genes, draws);
      r.Ok? ==> |r.value.maxFitness| == |draws| && Bounded(r.value, lo, hi)
  {
    if !(popsize >= 1 && lchrom == 0) {
      EvolveBounds(Initial(genes, xMin, xMax), fitness, xMin, xMax, popsize, lchrom, pcross, pmutation, draws, lo, hi);
    }
  }

  /** The whole of `genetic_algorithm`: when it fails, and what it records when it does not. */
  lemma RunOutcome(fitness: int -> real, xMin: int, xMax: int, popsize: nat, lchrom: nat, pcross: real,
                   pmutation: real, genes: seq<seq<int>>, draws: seq<seq<PairDraw>>)
    requires |genes| == popsize && forall i :: 0 <= i < popsize ==> IsBits(genes[i]) && |genes[i]| == lchrom
    requires DrawsFit(draws, popsize, lchrom, pcross)
    ensures var r := Run(fitness, xMin, xMax, popsize, lchrom, pcross, pmutation, genes, draws);
      (r.ValueError? <==>
        (popsize >= 1 && lchrom == 0) || (|draws| >= 1 && (popsize == 0 || (lchrom < 2 && AnyCross(draws, pcross)))))
      && (r.Ok? ==> |r.value.maxFitness| == |draws| && Ordered(r.value))
  {
    if !(popsize >= 1 && lchrom == 0) {
      EvolveFails(Initial(genes, xMin, xMax), fitness, xMin, xMax, popsize, lchrom, pcross, pmutation, draws);
      EvolveHistory(Initial(genes, xMin, xMax), fitness, xMin, xMax, popsize, lchrom, pcross, pmutation, draws);
    }
  }

  /**
   * The module's own configuration (`x` in `[-1, 21]`, 20 individuals, 50
   * generations, 5 genes) never fails, and every generation it records has
   * `2.5 <= min <= avg <= max <= 63`: every decoded value lies where the
   * parabola is positive, so the wheel is never degenerate.
   */
  lemma DefaultRun(genes: seq<seq<int>>, draws: seq<seq<PairDraw>>)
    requires |genes| == POPSIZE && forall i :: 0 <= i < POPSIZE ==> IsBits(genes[i]) && |genes[i]| == LCHROM
    requires |draws| == GENERATIONS && DrawsFit(draws, POPSIZE, LCHROM, PCROSS)
    ensures var r := Run(FitnessOf, X_MIN, X_MAX, POPSIZE, LCHROM, PCROSS, PMUTATION, genes, draws);
      r.Ok? && |r.value.maxFitness| == GENERATIONS && Ordered(r.value)
      && forall g :: 0 <= g < GENERATIONS ==> 2.5 <= r.value.minFitness[g] && r.value.maxFitness[g] <= 63.0
  {
    forall x | X_MIN <= x <= X_MAX ensures 2.5 <= FitnessOf(x) <= 63.0 {
      FitnessOnDomain(x);
    }
    RunOutcome(FitnessOf, X_MIN, X_MAX, POPSIZE, LCHROM, PCROSS, PMUTATION, genes, draws);
    RunBounds(FitnessOf, X_MIN, X_MAX, POPSIZE, LCHROM, PCROSS, PMUTATION, genes, draws, 2.5, 63.0);
  }
}
