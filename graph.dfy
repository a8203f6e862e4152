/**
 * What `findCircularDependencies` and `findMutualDependencies` report about a
 * dependency map. A reported line `"A <-> B"` is modelled as the pair (A, B).
 */
module Graph {

  /** `a` names `b`, `b` is itself a key, and `b` names `a`. */
  predicate Mutual(deps: map<string, set<string>>, a: string, b: string) {
    a in deps && b in deps[a] && b in deps && a in deps[b]
  }

  /** Every pair that the nested loop over keys and their sets adds. */
  function MutualPairs(deps: map<string, set<string>>): (r: set<(string, string)>)
    ensures forall a, b :: (a, b) in r <==> Mutual(deps, a, b)
  {
    set a, b | a in deps && b in deps[a] && b in deps && a in deps[b] :: (a, b)
  }

  /** Both orientations of every mutual pair are reported. */
  lemma MutualPairsSymmetric(deps: map<string, set<string>>, a: string, b: string)
    ensures (a, b) in MutualPairs(deps) <==> (b, a) in MutualPairs(deps)
  {
  }

  /** Only keys of the map appear in a reported pair. */
  lemma MutualPairsWithinKeys(deps: map<string, set<string>>, p: (string, string))
    requires p in MutualPairs(deps)
    ensures p.0 in deps && p.1 in deps
  {
  }

  /** An edge whose reverse is missing is never reported, in either orientation. */
  lemma OneWayEdgeNotReported(deps: map<string, set<string>>, a: string, b: string)
    requires a in deps && b in deps[a]
    requires b !in deps || a !in deps[b]
    ensures (a, b) !in MutualPairs(deps) && (b, a) !in MutualPairs(deps)
  {
  }

  /** A key that names itself is reported as paired with itself. */
  lemma SelfPairReported(deps: map<string, set<string>>, a: string)
    requires a in deps && a in deps[a]
    ensures (a, a) in MutualPairs(deps)
  {
  }

  /** A map in which no key names itself yields no pair of a key with itself. */
  lemma NoSelfPairs(deps: map<string, set<string>>, a: string)
    requires forall k :: k in deps ==> k !in deps[k]
    ensures (a, a) !in MutualPairs(deps)
  {
  }

  /** When no class named in a set is itself a key, nothing is reported. */
  lemma NoValueIsKeyNoPairs(deps: map<string, set<string>>)
    requires forall a, b :: a in deps && b in deps[a] ==> b !in deps
    ensures MutualPairs(deps) == {}
  {
  }

  /** Only direct two-node cycles are found: the cycle A -> B -> C -> A yields nothing. */
  lemma ThreeCycleNotReported()
    ensures MutualPairs(map["A" := {"B"}, "B" := {"C"}, "C" := {"A"}]) == {}
  {
    var deps := map["A" := {"B"}, "B" := {"C"}, "C" := {"A"}];
    forall a, b ensures !Mutual(deps, a, b) {
      if a in deps && b in deps[a] {
        assert a == "A" ==> b == "B";
        assert a == "B" ==> b == "C";
        assert a == "C" ==> b == "A";
      }
    }
  }

  /**
   * Two classes that name each other are reported twice, once per
   * orientation, and a third class they name adds nothing.
   */
  lemma TwoCycleReportedTwice(deps: map<string, set<string>>, a: string, b: string, c: string)
    requires a != b && c != a && c != b
    requires deps == map[a := {b, c}, b := {a}]
    ensures MutualPairs(deps) == {(a, b), (b, a)}
  {
    forall p | p in MutualPairs(deps) ensures p in {(a, b), (b, a)} {
      assert Mutual(deps, p.0, p.1);
    }
  }
}
