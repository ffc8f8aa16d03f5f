/** How fast PageRank converges: every round, whatever its order, leaves at most 0.8 of the total
    residual, so the error after r rounds is at most n * 0.8^r. */
module PageRankRounds {
  import opened DeltaMonoid
  import opened Protocol
  import opened Refinement
  import opened Runs
  import opened Rounds
  import opened PageRank

  /** Both tables balanced, and every value raised by at least its residual. */
  lemma ResidualShrinks(keys: seq<Key>, adj: Graph, t: Table<real>, t': Table<real>)
    requires ValidGraph(keys, adj) && Balanced(keys, adj, t) && Balanced(keys, adj, t')
    requires NonNegativeTable(t) && forall k :: k in keys ==> t[k].value + t[k].delta <= t'[k].value
    ensures Total(keys, DeltasOf(t')) <= 0.8 * Total(keys, DeltasOf(t))
  {
    hide Total;
    var both := map k | k in keys :: t[k].value + t[k].delta;
    Conservation(keys, adj, t);
    Conservation(keys, adj, t');
    TotalAdd(keys, both, ValuesOf(t), DeltasOf(t));
    TotalMonotone(keys, both, ValuesOf(t'));
    TotalMonotone(keys, DanglingOf(adj, t), DanglingOf(adj, t'));
  }

  ghost function Residue(n: nat, keys: seq<Key>, adj: Graph, acts: seq<Action<real>>): real
    requires ValidRun(n, keys, adj, acts)
  {
    EveryRunBalanced(n, keys, adj, acts);
    Total(keys, DeltasOf(After(n, keys, adj, acts)))
  }

  /** From any reachable state at rest, any schedule that processes every key at least once. */
  lemma RoundShrinks(n: nat, keys: seq<Key>, adj: Graph, acts: seq<Action<real>>, round: seq<Action<real>>)
    requires ValidRun(n, keys, adj, acts)
    requires Round(Job(n, keys, adj), Run(Job(n, keys, adj), Initial(Job(n, keys, adj)), acts), round)
    ensures ValidRun(n, keys, adj, acts + round)
    ensures Residue(n, keys, adj, acts + round) <= 0.8 * Residue(n, keys, adj, acts)
  {
    hide Feasible, Run, Abs, Balanced, Round, Everywhere;
    var p := Job(n, keys, adj);
    var c := Run(p, Initial(p), acts);
    RunConcat(p, Initial(p), acts, round);
    EveryRunBalanced(n, keys, adj, acts);
    EveryRunBalanced(n, keys, adj, acts + round);
    NonNegativeClosed(n, keys, adj);
    var le := (a: real, b: real) => a <= b;
    RoundFolds(p, c, round, NonNegative(), le);
    ResidualShrinks(keys, adj, After(n, keys, adj, acts), After(n, keys, adj, acts + round));
  }

  /** x * 0.8^r */
  function Decayed(x: real, r: nat): real { if r == 0 then x else 0.8 * Decayed(x, r - 1) }

  lemma {:induction false} DecayedFifth(x: real, r: nat)
    ensures 5.0 * Decayed(0.2 * x, r) == Decayed(x, r)
  {
    if r > 0 {
      DecayedFifth(x, r - 1);
    }
  }

  lemma StartResidue(n: nat, keys: seq<Key>, adj: Graph)
    requires ValidRun(n, keys, adj, [])
    ensures Residue(n, keys, adj, []) == 0.2 * |keys| as real
  {
    InitialAbs(Job(n, keys, adj));
    EveryRunBalanced(n, keys, adj, []);
    TotalBase(keys, DeltasOf(After(n, keys, adj, [])));
  }

  /** Rounds one after the other, from the loaded cluster. */
  ghost predicate FromStart(n: nat, keys: seq<Key>, adj: Graph, rounds: seq<seq<Action<real>>>) {
    ValidRun(n, keys, adj, []) && AllRounds(Job(n, keys, adj), Initial(Job(n, keys, adj)), rounds)
  }

  /** The residual after r rounds from the start. */
  lemma {:induction false} RoundsShrink(n: nat, keys: seq<Key>, adj: Graph, rounds: seq<seq<Action<real>>>)
    requires FromStart(n, keys, adj, rounds)
    ensures ValidRun(n, keys, adj, Flat(rounds))
    ensures Residue(n, keys, adj, Flat(rounds)) <= Decayed(0.2 * |keys| as real, |rounds|)
    decreases |rounds|
  {
    hide Feasible, Run, Round, Residue;
    var p := Job(n, keys, adj);
    RoundsRun(p, Initial(p), rounds);
    if rounds == [] {
      StartResidue(n, keys, adj);
    } else {
      var before := rounds[..|rounds| - 1];
      RoundsShrink(n, keys, adj, before);
      RoundShrinks(n, keys, adj, Flat(before), rounds[|rounds| - 1]);
    }
  }

  /** How much the values fall short of a solution, in total. */
  ghost function Shortfall(n: nat, keys: seq<Key>, adj: Graph, acts: seq<Action<real>>, x: Values): real
    requires ValidRun(n, keys, adj, acts) && Solves(keys, adj, x)
  {
    EveryRunBalanced(n, keys, adj, acts);
    Total(keys, x) - Total(keys, ValuesOf(After(n, keys, adj, acts)))
  }

  lemma ShortfallByResidue(n: nat, keys: seq<Key>, adj: Graph, acts: seq<Action<real>>, x: Values)
    requires ValidRun(n, keys, adj, acts) && Solves(keys, adj, x)
    ensures Below(keys, After(n, keys, adj, acts), x)
    ensures Shortfall(n, keys, adj, acts, x) <= 5.0 * Residue(n, keys, adj, acts)
  {
    EveryRunErrorBound(n, keys, adj, acts, x);
  }

  /** Convergence: after r rounds the values, which are below every solution, miss it by at most
      n * 0.8^r in total. */
  lemma ErrorAfterRounds(n: nat, keys: seq<Key>, adj: Graph, rounds: seq<seq<Action<real>>>, x: Values)
    requires FromStart(n, keys, adj, rounds) && Solves(keys, adj, x)
    ensures ValidRun(n, keys, adj, Flat(rounds))
    ensures Below(keys, After(n, keys, adj, Flat(rounds)), x)
    ensures Shortfall(n, keys, adj, Flat(rounds), x) <= Decayed(|keys| as real, |rounds|)
  {
    hide *;
    RoundsShrink(n, keys, adj, rounds);
    ShortfallByResidue(n, keys, adj, Flat(rounds), x);
    FiveTimes(Shortfall(n, keys, adj, Flat(rounds), x), Residue(n, keys, adj, Flat(rounds)), |keys| as real, |rounds|);
  }

  lemma FiveTimes(short: real, rest: real, x: real, r: nat)
    requires short <= 5.0 * rest && rest <= Decayed(0.2 * x, r)
    ensures short <= Decayed(x, r)
  {
    DecayedFifth(x, r);
  }

  /** And there is such a run, for every r. */
  lemma SomeConvergingRun(n: nat, keys: seq<Key>, adj: Graph, r: nat) returns (rounds: seq<seq<Action<real>>>)
    requires n > 0 && ValidGraph(keys, adj)
    ensures FromStart(n, keys, adj, rounds) && |rounds| == r
  {
    JobValid(n, keys, adj);
    InitialAtRest(Job(n, keys, adj));
    rounds := SomeRounds(Job(n, keys, adj), Initial(Job(n, keys, adj)), r);
  }
}
