/**
 * The operators of the function-maximising engine (GenMax/GenMax/GenMax.py):
 * the objective and its clipped fitness, the biased coin, one-point
 * crossover, bit-flip mutation and roulette-wheel selection.
 *
 * Every value the source draws from `random` is a parameter: a coin
 * `random.random()` is a real `u` (in `[0, 1)` when it comes from the
 * generator) and `flip(p)` is `u < p`; `randint` draws are integers.
 */
module GenMax {
  import opened Sequences
  import opened Binary
  import opened Stats

  /** A computation that either yields a value or raises Python's `ValueError`. */
  datatype Result<T> = Ok(value: T) | ValueError

  /** The configuration the module runs with. */
  const X_MIN: int := -1
  const X_MAX: int := 21
  const POPSIZE: nat := 20
  const GENERATIONS: nat := 50
  const LCHROM: nat := 5
  const PCROSS: real := 0.7
  const PMUTATION: real := 0.001

  /** `function`: the parabola `-0.5 x^2 + 10 x + 13`. */
  function Objective(x: int): real
  {
    -0.5 * (x * x) as real + 10.0 * x as real + 13.0
  }

  /** `fitness_function`: the objective where it is positive, 0 elsewhere. */
  function FitnessOf(x: int): (f: real)
    ensures f >= 0.0 && f >= Objective(x)
    ensures f > 0.0 ==> f == Objective(x)
  {
    var result := Objective(x);
    if result > 0.0 then result else 0.0
  }

  /** The parabola peaks at `x = 10` with value 63 and nowhere else reaches it. */
  lemma ObjectivePeak(x: int)
    ensures Objective(x) <= 63.0
    ensures Objective(x) == 63.0 <==> x == 10
  {
    ObjectiveAroundPeak(x);
    SquarePositive(x - 10);
  }

  /** A square is never negative, and is positive away from 0. */
  lemma SquarePositive(d: int)
    ensures d * d >= 0
    ensures d != 0 ==> d * d >= 1
  {
    if d > 0 {
      assert d * d >= d;
    } else if d < 0 {
      assert d * d >= -d;
    }
  }

  /** So fitness never exceeds 63, reached exactly at `x = 10`. */
  lemma FitnessPeak(x: int)
    ensures 0.0 <= FitnessOf(x) <= 63.0
    ensures FitnessOf(x) == 63.0 <==> x == 10
  {
    ObjectivePeak(x);
  }

  /** The parabola in terms of the distance `d` from its peak: `63 - d^2 / 2`. */
  lemma ObjectiveAroundPeak(x: int)
    ensures Objective(x) == 63.0 - 0.5 * ((x - 10) * (x - 10)) as real
  {
    var d := x - 10;
    assert x * x == d * d + 20 * d + 100;
  }

  /** Squares of integers within 11 of 0 are at most 121; squares further out are at least 144. */
  lemma SquareBounds(d: int)
    ensures -11 <= d <= 11 ==> 0 <= d * d <= 121
    ensures (d < -11 || d > 11) ==> d * d >= 144
  {
    if 0 <= d <= 11 {
      assert d * d <= 11 * d;
    } else if -11 <= d < 0 {
      assert d * d <= -11 * d;
    } else if d > 11 {
      assert d * d >= 12 * d;
    } else {
      assert d * d >= -12 * d;
    }
  }

  /**
   * The fitness is positive exactly on the integers `-1 .. 21`, the module's
   * default decoding range: the parabola's roots are `10 -+ sqrt(126)`.
   */
  lemma FitnessPositiveRange(x: int)
    ensures FitnessOf(x) > 0.0 <==> X_MIN <= x <= X_MAX
  {
    ObjectiveAroundPeak(x);
    SquareBounds(x - 10);
  }

  /** On the default range `[-1, 21]` the fitness lies between 2.5 (at both ends) and 63. */
  lemma FitnessOnDomain(x: int)
    requires X_MIN <= x <= X_MAX
    ensures 2.5 <= FitnessOf(x) <= 63.0
  {
    ObjectiveAroundPeak(x);
    SquareBounds(x - 10);
  }

  /** `flip(probability)`: the coin `u` comes up below the probability. */
  predicate Flip(u: real, probability: real)
  {
    u < probability
  }

  /**
   * `crossover`: with the coin `u` against `pcross`, either copies of both
   * parents, or the two one-point children cut at `jcross`, which is drawn by
   * `randint(1, lchrom - 1)` and raises `ValueError` when that range is
   * empty. (`pmutation` is passed to the source function but not used.)
   */
  function Crossover(parent1: seq<int>, parent2: seq<int>, lchrom: int, pcross: real, u: real, jcross: int)
    : (r: Result<(seq<int>, seq<int>)>)
    requires Flip(u, pcross) && lchrom >= 2 ==> 1 <= jcross <= lchrom - 1
    ensures r.ValueError? <==> Flip(u, pcross) && lchrom < 2
    ensures r.Ok? && !Flip(u, pcross) ==> r.value == (parent1, parent2)
    ensures r.Ok? && |parent1| == |parent2| == lchrom ==>
      CutAt(parent1, parent2, r.value.0, r.value.1, if Flip(u, pcross) then jcross else lchrom)
  {
    if !Flip(u, pcross) then Ok((parent1, parent2))
    else if lchrom < 2 then ValueError
    else
      var child1 := Take(parent1, jcross) + Drop(parent2, jcross);
      var child2 := Take(parent2, jcross) + Drop(parent1, jcross);
      assert |parent1| == |parent2| == lchrom ==> CutAt(parent1, parent2, child1, child2, jcross) by {
        if |parent1| == |parent2| == lchrom {
          SpliceAt(parent1, parent2, jcross);
        }
      }
      Ok((child1, child2))
  }

  /**
   * The two certain settings of `pcross`: at 0 the children are always copies
   * of the parents; at 1 the parents are always cut, strictly inside, and a
   * chromosome shorter than two genes makes `rnd(1, lchrom - 1)` fail.
   */
  lemma CrossoverCertain(parent1: seq<int>, parent2: seq<int>, lchrom: int, u: real, jcross: int)
    requires 0.0 <= u < 1.0
    requires |parent1| == |parent2| == lchrom
    requires lchrom >= 2 ==> 1 <= jcross <= lchrom - 1
    ensures Crossover(parent1, parent2, lchrom, 0.0, u, jcross) == Ok((parent1, parent2))
    ensures lchrom < 2 ==> Crossover(parent1, parent2, lchrom, 1.0, u, jcross) == ValueError
    ensures lchrom >= 2 ==>
      var r := Crossover(parent1, parent2, lchrom, 1.0, u, jcross);
      r.Ok? && CutAt(parent1, parent2, r.value.0, r.value.1, jcross) && 0 < jcross < lchrom
  {
  }

  /**
   * The children of two equally long parents cut at `cut`: before it each
   * child has its own parent's genes, from it on the other parent's.
   */
  predicate CutAt(parent1: seq<int>, parent2: seq<int>, child1: seq<int>, child2: seq<int>, cut: int)
    requires |parent1| == |parent2|
  {
    |child1| == |child2| == |parent1|
    && 0 <= cut <= |parent1|
    && (forall k :: 0 <= k < cut ==> child1[k] == parent1[k] && child2[k] == parent2[k])
    && (forall k :: cut <= k < |parent1| ==> child1[k] == parent2[k] && child2[k] == parent1[k])
  }

  lemma SpliceAt(parent1: seq<int>, parent2: seq<int>, jcross: nat)
    requires |parent1| == |parent2| && 1 <= jcross < |parent1|
    ensures CutAt(parent1, parent2,
                  Take(parent1, jcross) + Drop(parent2, jcross),
                  Take(parent2, jcross) + Drop(parent1, jcross), jcross)
  {
  }

  /**
   * So no gene is made up: the children of bit strings are bit strings, and
   * the pair's genes are conserved, locus by locus.
   */
  lemma CutConserves(parent1: seq<int>, parent2: seq<int>, child1: seq<int>, child2: seq<int>, cut: int)
    requires |parent1| == |parent2| && CutAt(parent1, parent2, child1, child2, cut)
    ensures IsBits(parent1) && IsBits(parent2) ==> IsBits(child1) && IsBits(child2)
    ensures forall k :: 0 <= k < |parent1| ==> multiset{child1[k], child2[k]} == multiset{parent1[k], parent2[k]}
    ensures multiset(child1) + multiset(child2) == multiset(parent1) + multiset(parent2)
  {
    assert child1 == parent1[..cut] + parent2[cut..];
    assert child2 == parent2[..cut] + parent1[cut..];
    assert parent1 == parent1[..cut] + parent1[cut..];
    assert parent2 == parent2[..cut] + parent2[cut..];
  }

  /** `mutate` on a copy: each gene inverted when its own coin comes up. */
  function Flipped(chromosome: seq<int>, pmutation: real, coins: seq<real>): (r: seq<int>)
    requires |coins| == |chromosome|
    ensures |r| == |chromosome|
  {
    seq(|chromosome|, i requires 0 <= i < |chromosome| =>
      if Flip(coins[i], pmutation) then 1 - chromosome[i] else chromosome[i])
  }

  /** Mutation keeps a bit string a bit string, changes exactly the loci whose coin came up, and undoes itself. */
  lemma FlippedLoci(chromosome: seq<int>, pmutation: real, coins: seq<real>)
    requires |coins| == |chromosome|
    ensures IsBits(chromosome) ==> IsBits(Flipped(chromosome, pmutation, coins))
    ensures IsBits(chromosome) ==> forall i :: 0 <= i < |chromosome| ==>
      (Flipped(chromosome, pmutation, coins)[i] != chromosome[i] <==> Flip(coins[i], pmutation))
    ensures Flipped(Flipped(chromosome, pmutation, coins), pmutation, coins) == chromosome
  {
  }

  /** With `pmutation = 0` and coins from `[0, 1)` nothing changes. */
  lemma FlippedNever(chromosome: seq<int>, coins: seq<real>)
    requires |coins| == |chromosome|
    requires forall i :: 0 <= i < |coins| ==> 0.0 <= coins[i] < 1.0
    ensures Flipped(chromosome, 0.0, coins) == chromosome
  {
  }

  /** `mutate`: inverts, in place, the genes whose coin comes up. */
  method Mutate(chromosome: array<int>, pmutation: real, coins: seq<real>)
    requires |coins| == chromosome.Length
    modifies chromosome
    ensures chromosome[..] == Flipped(old(chromosome[..]), pmutation, coins)
  {
    for i := 0 to chromosome.Length
      invariant forall k :: 0 <= k < i ==>
        chromosome[k] == if Flip(coins[k], pmutation) then 1 - old(chromosome[k]) else old(chromosome[k])
      invariant forall k :: i <= k < chromosome.Length ==> chromosome[k] == old(chromosome[k])
    {
      if Flip(coins[i], pmutation) {
        chromosome[i] := 1 - chromosome[i];
      }
    }
  }

  /** A chromosome with its recorded fitness: the source's `[chromosome, fitness]` pair. */
  datatype Individual = Individual(chromosome: seq<int>, fitness: real)

  /** `[ind[1] for ind in population]`. */
  function Fitnesses(population: seq<Individual>): (fits: seq<real>)
    ensures |fits| == |population|
    ensures forall i :: 0 <= i < |population| ==> fits[i] == population[i].fitness
  {
    seq(|population|, i requires 0 <= i < |population| => population[i].fitness)
  }

  /** The wheel's running total once slot `k` has been passed: `sum(fits[:k + 1])`. */
  function RunningTotal(fits: seq<real>, k: nat): real
    requires k < |fits|
  {
    Sum(fits[..k + 1])
  }

  /**
   * The slot the wheel stops at for `pick`: the first whose running total
   * of fitness exceeds `pick`, and the last slot when none does (which is
   * what `population[-1]` returns, e.g. when every fitness is 0).
   */
  function Selected(fits: seq<real>, pick: real): (i: nat)
    requires |fits| >= 1
    ensures i < |fits|
    ensures forall k :: 0 <= k < i ==> RunningTotal(fits, k) <= pick
    ensures RunningTotal(fits, i) > pick || i == |fits| - 1
  {
    SelectedFrom(fits, pick, 0)
  }

  function SelectedFrom(fits: seq<real>, pick: real, start: nat): (i: nat)
    requires start < |fits|
    requires forall k :: 0 <= k < start ==> RunningTotal(fits, k) <= pick
    ensures start <= i < |fits|
    ensures forall k :: 0 <= k < i ==> RunningTotal(fits, k) <= pick
    ensures RunningTotal(fits, i) > pick || i == |fits| - 1
    decreases |fits| - start
  {
    if start == |fits| - 1 || RunningTotal(fits, start) > pick then start
    else SelectedFrom(fits, pick, start + 1)
  }

  /**
   * A pick from `[0, fitness_sum)` over non-negative fitness values always
   * lands on an individual of positive fitness.
   */
  lemma SelectedHasFitness(fits: seq<real>, pick: real)
    requires |fits| >= 1
    requires forall k :: 0 <= k < |fits| ==> fits[k] >= 0.0
    requires 0.0 <= pick < Sum(fits)
    ensures fits[Selected(fits, pick)] > 0.0
  {
    var i := Selected(fits, pick);
    assert RunningTotal(fits, i) > pick by {
      if i == |fits| - 1 {
        assert fits[..i + 1] == fits;
      }
    }
    SumStep(fits, i);
    if i > 0 {
      assert RunningTotal(fits, i - 1) <= pick;
      assert fits[..(i - 1) + 1] == fits[..i];
    } else {
      assert fits[..0] == [];
    }
  }

  /**
   * With a total fitness of 0 the pick is 0, no running total exceeds it, and
   * the wheel falls through to the last individual.
   */
  lemma SelectedWhenAllZero(fits: seq<real>)
    requires |fits| >= 1
    requires forall k :: 0 <= k < |fits| ==> fits[k] == 0.0
    ensures Selected(fits, 0.0) == |fits| - 1
  {
    var i := Selected(fits, 0.0);
    SumAtMost(fits[..i + 1], 0.0);
  }

  /** The chromosome the wheel stops at for the coin `u`. */
  function Spin(population: seq<Individual>, fitnessSum: real, u: real): seq<int>
    requires |population| >= 1
  {
    population[Selected(Fitnesses(population), u * fitnessSum)].chromosome
  }

  /**
   * `roulette_wheel_selection`: spins the wheel with `pick = u * fitness_sum`
   * and returns the chromosome (the list itself, not a copy) where it stops.
   * The source reads `population[-1]` on fall-through, so it needs a
   * non-empty population.
   */
  method RouletteWheelSelection(population: seq<Individual>, fitnessSum: real, u: real)
    returns (chromosome: seq<int>)
    requires |population| >= 1
    ensures chromosome == Spin(population, fitnessSum, u)
  {
    var pick := u * fitnessSum;
    ghost var fits := Fitnesses(population);
    var current := 0.0;
    var i := 0;
    while i < |population|
      invariant 0 <= i <= |population|
      invariant current == Sum(fits[..i])
      invariant forall k :: 0 <= k < i ==> RunningTotal(fits, k) <= pick
      invariant i < |population| ==> SelectedFrom(fits, pick, i) == Selected(fits, pick)
    {
      current := current + population[i].fitness;
      SumStep(fits, i);
      if current > pick {
        return population[i].chromosome;
      }
      i := i + 1;
    }
    chromosome := population[|population| - 1].chromosome;
  }
}
