/**
 * The artifact naming scheme: one file name per (image stem, parameter set,
 * seed), the seed-wildcarded pattern used to count existing artifacts, and
 * the fixed six-group regex that reads a name back.
 */
module Naming {
  import opened Options
  import opened Decimal
  import opened Text

  /** The generation knobs embedded in a name, in their order there. */
  datatype Params = Params(octree: int, steps: int, guidance: int, faces: int)

  /** What one artifact name identifies: the image stem, the parameters, the seed. */
  datatype Artifact = Artifact(base: string, params: Params, seed: int)

  /** The six groups of a regex match, as text. */
  datatype RawFields = RawFields(base: string, octree: string, steps: string,
                                 guidance: string, faces: string, seed: string)

  const Extension: string := ".glb"

  /** `{base}_{octree}_{steps}_{guidance}_{faces}_`: the name up to the seed. */
  function PatternPrefix(base: string, p: Params): string
  {
    base + "_" + IntToDec(p.octree) + "_" + IntToDec(p.steps) + "_"
      + IntToDec(p.guidance) + "_" + IntToDec(p.faces) + "_"
  }

  /** The prefix starts with the base. */
  lemma PrefixStartsWithBase(base: string, p: Params)
    ensures StartsWith(PatternPrefix(base, p), base)
  {
    var prefix := PatternPrefix(base, p);
    assert prefix[..|base|] == base;
  }

  /** `{base}_{octree}_{steps}_{guidance}_{faces}_{seed}.glb` */
  function BuildName(a: Artifact): string
  {
    PatternPrefix(a.base, a.params) + IntToDec(a.seed) + Extension
  }

  /** The glob `{base}_{octree}_{steps}_{guidance}_{faces}_*.glb`: `*` is any text. */
  predicate MatchesPattern(name: string, base: string, p: Params)
  {
    var prefix := PatternPrefix(base, p);
    |prefix| + |Extension| <= |name| && StartsWith(name, prefix) && EndsWith(name, Extension)
  }

  function RawName(r: RawFields): string
  {
    r.base + "_" + r.octree + "_" + r.steps + "_" + r.guidance + "_" + r.faces + "_" + r.seed + Extension
  }

  function Render(a: Artifact): RawFields
  {
    RawFields(a.base, IntToDec(a.params.octree), IntToDec(a.params.steps),
              IntToDec(a.params.guidance), IntToDec(a.params.faces), IntToDec(a.seed))
  }

  /**
   * The groups of a successful match of
   * `^(.*)_([0-9]+)_([0-9]+)_([0-9]+)_([0-9]+)_([0-9]+)\.glb$`:
   * `.` does not match a newline, each numeric group is ASCII digits.
   */
  predicate WellFormed(r: RawFields)
  {
    && '\n' !in r.base
    && IsDigits(r.octree) && IsDigits(r.steps) && IsDigits(r.guidance)
    && IsDigits(r.faces) && IsDigits(r.seed)
  }

  predicate NoSeparator(r: RawFields)
  {
    '_' !in r.octree && '_' !in r.steps && '_' !in r.guidance && '_' !in r.faces && '_' !in r.seed
  }

  predicate NonNegative(a: Artifact)
  {
    a.params.octree >= 0 && a.params.steps >= 0 && a.params.guidance >= 0
      && a.params.faces >= 0 && a.seed >= 0
  }

  /** Splits off the last `_`-separated field when it is all digits. */
  function TakeField(s: string): (r: Option<(string, string)>)
    ensures r.Some? ==> s == r.value.0 + "_" + r.value.1 && IsDigits(r.value.1)
  {
    match LastIndexOf(s, '_')
    case None => None
    case Some(k) =>
      if IsDigits(s[k + 1..]) then
        assert s == s[..k] + "_" + s[k + 1..];
        Some((s[..k], s[k + 1..]))
      else None
  }

  /**
   * The regex match. Digit groups contain no `_`, so the five numeric groups
   * are the last five `_`-separated fields before `.glb`, and the greedy base
   * is everything before them.
   */
  function ParseFields(name: string): (r: Option<RawFields>)
    ensures r.Some? ==> WellFormed(r.value) && name == RawName(r.value)
  {
    if !EndsWith(name, Extension) then None
    else
      var stem := name[..|name| - |Extension|];
      assert name == stem + Extension;
      var t5 := TakeField(stem);
      if t5.None? then None else
      var t4 := TakeField(t5.value.0);
      if t4.None? then None else
      var t3 := TakeField(t4.value.0);
      if t3.None? then None else
      var t2 := TakeField(t3.value.0);
      if t2.None? then None else
      var t1 := TakeField(t2.value.0);
      if t1.None? || '\n' in t1.value.0 then None
      else Some(RawFields(t1.value.0, t1.value.1, t2.value.1, t3.value.1, t4.value.1, t5.value.1))
  }

  /** The match followed by `int(...)` on each numeric group. */
  function ParseName(name: string): (r: Option<Artifact>)
    ensures r.Some? ==> NonNegative(r.value) && '\n' !in r.value.base
  {
    match ParseFields(name)
    case None => None
    case Some(f) =>
      Some(Artifact(f.base, Params(DecToNat(f.octree), DecToNat(f.steps), DecToNat(f.guidance),
                                   DecToNat(f.faces)), DecToNat(f.seed)))
  }

  lemma TakeFieldComplete(u: string, d: string)
    requires IsDigits(d)
    ensures TakeField(u + "_" + d) == Some((u, d))
  {
    var s := u + "_" + d;
    assert s[|u|] == '_';
    var k := LastIndexOf(s, '_');
    assert k.Some?;
    assert k.value == |u|;
    assert s[..|u|] == u && s[|u| + 1..] == d;
  }

  lemma ParseFieldsComplete(r: RawFields)
    requires WellFormed(r)
    ensures ParseFields(RawName(r)) == Some(r)
  {
    var s1 := r.base + "_" + r.octree;
    var s2 := s1 + "_" + r.steps;
    var s3 := s2 + "_" + r.guidance;
    var s4 := s3 + "_" + r.faces;
    var s5 := s4 + "_" + r.seed;
    var name := RawName(r);
    assert name == s5 + Extension;
    assert name[..|name| - |Extension|] == s5;
    TakeFieldComplete(s4, r.seed);
    TakeFieldComplete(s3, r.faces);
    TakeFieldComplete(s2, r.guidance);
    TakeFieldComplete(s1, r.steps);
    TakeFieldComplete(r.base, r.octree);
  }

  /**
   * The parser is exactly the regex: it returns the groups of a match when
   * there is one, and "no match" (never an error) when there is none.
   */
  lemma ParseFieldsIsRegexMatch(name: string, r: RawFields)
    ensures ParseFields(name) == Some(r) <==> WellFormed(r) && name == RawName(r)
    ensures ParseName(name).None? <==> ParseFields(name).None?
  {
    if WellFormed(r) && name == RawName(r) {
      ParseFieldsComplete(r);
    }
  }

  /** A name that does not end in `.glb` never parses. */
  lemma ParseRejectsOtherExtensions(name: string)
    requires !EndsWith(name, Extension)
    ensures ParseName(name) == None
  {
  }

  /** Reading a built name gives back exactly what was written into it. */
  lemma BuildParseRoundTrip(a: Artifact)
    requires NonNegative(a) && '\n' !in a.base
    ensures ParseName(BuildName(a)) == Some(a)
  {
    var r := Render(a);
    assert BuildName(a) == RawName(r);
    ParseFieldsComplete(r);
    NatToDecRoundTrip(a.params.octree);
    NatToDecRoundTrip(a.params.steps);
    NatToDecRoundTrip(a.params.guidance);
    NatToDecRoundTrip(a.params.faces);
    NatToDecRoundTrip(a.seed);
  }

  /** A parsed name without leading zeros is rebuilt exactly. */
  lemma ParseBuildRoundTrip(name: string)
    requires ParseFields(name).Some?
    requires var f := ParseFields(name).value;
      IsCanonical(f.octree) && IsCanonical(f.steps) && IsCanonical(f.guidance)
      && IsCanonical(f.faces) && IsCanonical(f.seed)
    ensures ParseName(name).Some? && BuildName(ParseName(name).value) == name
  {
    var f := ParseFields(name).value;
    CanonicalRoundTrip(f.octree);
    CanonicalRoundTrip(f.steps);
    CanonicalRoundTrip(f.guidance);
    CanonicalRoundTrip(f.faces);
    CanonicalRoundTrip(f.seed);
    assert Render(ParseName(name).value) == f;
  }

  /** Removing the last `_`-separated field is unambiguous. */
  lemma SplitLastField(u1: string, d1: string, u2: string, d2: string)
    requires '_' !in d1 && '_' !in d2
    requires u1 + "_" + d1 == u2 + "_" + d2
    ensures u1 == u2 && d1 == d2
  {
    var s := u1 + "_" + d1;
    // Both `|u1|` and `|u2|` are the position of the last separator in `s`.
    assert s[|u1|] == '_' && s[|u2|] == '_';
    var k := LastIndexOf(s, '_');
    assert k.Some? && k.value == |u1| && k.value == |u2|;
    assert u1 == s[..|u1|] == u2;
    assert d1 == s[|u1| + 1..] == d2;
  }

  lemma RawNameInjective(r1: RawFields, r2: RawFields)
    requires NoSeparator(r1) && NoSeparator(r2)
    requires RawName(r1) == RawName(r2)
    ensures r1 == r2
  {
    var n := RawName(r1);
    var a1 := r1.base + "_" + r1.octree + "_" + r1.steps + "_" + r1.guidance + "_" + r1.faces + "_" + r1.seed;
    var a2 := r2.base + "_" + r2.octree + "_" + r2.steps + "_" + r2.guidance + "_" + r2.faces + "_" + r2.seed;
    assert n == a1 + Extension == a2 + Extension;
    assert a1 == n[..|n| - |Extension|] == a2;
    SplitLastField(r1.base + "_" + r1.octree + "_" + r1.steps + "_" + r1.guidance + "_" + r1.faces, r1.seed,
                   r2.base + "_" + r2.octree + "_" + r2.steps + "_" + r2.guidance + "_" + r2.faces, r2.seed);
    SplitLastField(r1.base + "_" + r1.octree + "_" + r1.steps + "_" + r1.guidance, r1.faces,
                   r2.base + "_" + r2.octree + "_" + r2.steps + "_" + r2.guidance, r2.faces);
    SplitLastField(r1.base + "_" + r1.octree + "_" + r1.steps, r1.guidance,
                   r2.base + "_" + r2.octree + "_" + r2.steps, r2.guidance);
    SplitLastField(r1.base + "_" + r1.octree, r1.steps, r2.base + "_" + r2.octree, r2.steps);
    SplitLastField(r1.base, r1.octree, r2.base, r2.octree);
  }

  /** Distinct (base, parameters, seed) never share a name, whatever the base or the signs. */
  lemma BuildNameInjective(a1: Artifact, a2: Artifact)
    requires BuildName(a1) == BuildName(a2)
    ensures a1 == a2
  {
    assert BuildName(a1) == RawName(Render(a1));
    assert BuildName(a2) == RawName(Render(a2));
    RawNameInjective(Render(a1), Render(a2));
    IntToDecInjective(a1.params.octree, a2.params.octree);
    IntToDecInjective(a1.params.steps, a2.params.steps);
    IntToDecInjective(a1.params.guidance, a2.params.guidance);
    IntToDecInjective(a1.params.faces, a2.params.faces);
    IntToDecInjective(a1.seed, a2.seed);
  }

  /** Every built name is counted by the pattern of its base and parameters, whatever its seed. */
  lemma BuildNameMatchesPattern(a: Artifact)
    ensures MatchesPattern(BuildName(a), a.base, a.params)
  {
    var prefix := PatternPrefix(a.base, a.params);
    Bracketed(prefix, IntToDec(a.seed), Extension);
  }

  /**
   * For one image stem, the pattern never counts an artifact made with other
   * parameters: a name built for `q` matches the pattern for `p` only if q == p.
   */
  lemma PatternSeparatesParams(base: string, p: Params, q: Params, seed: int)
    requires MatchesPattern(BuildName(Artifact(base, q, seed)), base, p)
    ensures q == p
  {
    var n := BuildName(Artifact(base, q, seed));
    var r := WildcardFields(n, base, p);
    var rq := Render(Artifact(base, q, seed));
    WildcardHasNoSeparator(n, base, p, rq);
    RawNameInjective(r, rq);
    IntToDecInjective(p.octree, q.octree);
    IntToDecInjective(p.steps, q.steps);
    IntToDecInjective(p.guidance, q.guidance);
    IntToDecInjective(p.faces, q.faces);
  }

  /**
   * When the matched name is also the name of fields without separators in
   * their groups, the wildcard part holds no separator either: both spellings
   * hold the base's separators plus five more.
   */
  lemma WildcardHasNoSeparator(n: string, base: string, p: Params, rq: RawFields)
    requires MatchesPattern(n, base, p)
    requires NoSeparator(rq) && rq.base == base && RawName(rq) == n
    ensures '_' !in WildcardFields(n, base, p).seed
  {
    var r := WildcardFields(n, base, p);
    SeparatorCount(r);
    SeparatorCount(rq);
    assert multiset(r.seed)['_'] == 0;
  }

  /** The fields of a name that matches the pattern, with the wildcard text as the seed group. */
  function WildcardFields(n: string, base: string, p: Params): (r: RawFields)
    requires MatchesPattern(n, base, p)
    ensures RawName(r) == n && r.base == base
  {
    var prefix := PatternPrefix(base, p);
    var w := n[|prefix|..|n| - |Extension|];
    Around(n, prefix, Extension);
    RawFields(base, IntToDec(p.octree), IntToDec(p.steps), IntToDec(p.guidance),
              IntToDec(p.faces), w)
  }

  /** A name holds the base's separators, the five between groups, and those in the seed group. */
  lemma SeparatorCount(r: RawFields)
    requires '_' !in r.octree && '_' !in r.steps && '_' !in r.guidance && '_' !in r.faces
    ensures multiset(RawName(r))['_'] == multiset(r.base)['_'] + 5 + multiset(r.seed)['_']
  {
    var s1 := r.base + "_" + r.octree;
    var s2 := s1 + "_" + r.steps;
    var s3 := s2 + "_" + r.guidance;
    var s4 := s3 + "_" + r.faces;
    JoinClean(r.base, r.octree);
    JoinClean(s1, r.steps);
    JoinClean(s2, r.guidance);
    JoinClean(s3, r.faces);
    JoinCount(s4, r.seed, Extension);
  }

  /** Joining a separator-free field adds one separator. */
  lemma JoinClean(a: string, b: string)
    requires '_' !in b
    ensures multiset(a + "_" + b)['_'] == multiset(a)['_'] + 1
  {
    assert multiset(b)['_'] == 0;
    assert multiset(a + "_" + b) == multiset(a) + multiset("_") + multiset(b);
  }

  /** Joining the seed field and the extension adds one separator and the seed's own. */
  lemma JoinCount(a: string, b: string, e: string)
    requires e == Extension
    ensures multiset(a + "_" + b + e)['_'] == multiset(a)['_'] + 1 + multiset(b)['_']
  {
    assert multiset(e)['_'] == 0;
    assert multiset(a + "_" + b + e) == multiset(a) + multiset("_") + multiset(b) + multiset(e);
  }

  /**
   * Across stems the pattern is not exact: an image whose stem itself starts
   * with the pattern prefix of stem `base` and parameters `p` (say `a_1_2_3_4_9`
   * against `a` and (1, 2, 3, 4)) yields artifacts, with any parameters and
   * seed, that the pattern of `base` and `p` counts.
   */
  lemma PatternAdmitsExtendedStem(base: string, p: Params, x: string, q: Params, seed: int)
    ensures MatchesPattern(BuildName(Artifact(PatternPrefix(base, p) + x, q, seed)), base, p)
  {
    var prefix := PatternPrefix(base, p);
    var n := BuildName(Artifact(prefix + x, q, seed));
    var stem := prefix + x;
    Bracketed(PatternPrefix(stem, q), IntToDec(seed), Extension);
    PrefixStartsWithBase(stem, q);
    Bracketed(prefix, x, []);
    StartsWithTrans(PatternPrefix(stem, q), stem, prefix);
    StartsWithTrans(n, PatternPrefix(stem, q), prefix);
  }

}
