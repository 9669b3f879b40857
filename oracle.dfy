/**
 * The existence oracle: how many names in the output directory the
 * seed-wildcarded pattern of (base, parameters) matches. The directory is
 * re-scanned on every call, so writes made in between are seen.
 */
module Oracle {
  import opened Naming

  function MatchingNames(names: set<string>, base: string, p: Params): set<string>
  {
    set n | n in names && MatchesPattern(n, base, p)
  }

  /** `len(glob.glob(pattern))` */
  function CountMatching(names: set<string>, base: string, p: Params): nat
  {
    |MatchingNames(names, base, p)|
  }

  /** Adding one new matching name raises the count by exactly one. */
  lemma CountAddMatching(names: set<string>, name: string, base: string, p: Params)
    requires name !in names && MatchesPattern(name, base, p)
    ensures CountMatching(names + {name}, base, p) == CountMatching(names, base, p) + 1
  {
    assert MatchingNames(names + {name}, base, p) == MatchingNames(names, base, p) + {name};
  }

  /** A present matching name makes the count positive. */
  lemma CountPresent(names: set<string>, name: string, base: string, p: Params)
    requires name in names && MatchesPattern(name, base, p)
    ensures CountMatching(names, base, p) >= 1
  {
    assert name in MatchingNames(names, base, p);
  }

  /** The names of a set of artifacts. */
  function Names(arts: set<Artifact>): set<string>
  {
    set a | a in arts :: BuildName(a)
  }

  /** Distinct artifacts have distinct names, so there are as many names as artifacts. */
  lemma {:induction false} NamesCount(arts: set<Artifact>)
    ensures |Names(arts)| == |arts|
    decreases |arts|
  {
    if arts != {} {
      var a :| a in arts;
      var rest := arts - {a};
      NamesCount(rest);
      assert Names(arts) == Names(rest) + {BuildName(a)};
      if BuildName(a) in Names(rest) {
        var b :| b in rest && BuildName(b) == BuildName(a);
        BuildNameInjective(a, b);
      }
    }
  }

  /**
   * No false positives within one stem: over a directory whose names are all
   * built for stem `base`, the count for `p` is exactly the number of those
   * artifacts made with parameters `p`, whatever their seeds.
   */
  lemma CountIsArtifactsWithParams(arts: set<Artifact>, base: string, p: Params)
    requires forall a :: a in arts ==> a.base == base
    ensures CountMatching(Names(arts), base, p) == |set a | a in arts && a.params == p|
  {
    var own := set a | a in arts && a.params == p;
    assert MatchingNames(Names(arts), base, p) == Names(own) by {
      forall n | n in Names(arts) && MatchesPattern(n, base, p) ensures n in Names(own) {
        var a :| a in arts && BuildName(a) == n;
        PatternSeparatesParams(base, p, a.params, a.seed);
      }
      forall n | n in Names(own) ensures n in Names(arts) && MatchesPattern(n, base, p) {
        var a :| a in own && BuildName(a) == n;
        BuildNameMatchesPattern(a);
      }
    }
    NamesCount(own);
  }
}
