/**
 * Matching instances against family patterns and requirements: pattern matching, instance
 * filtering, the runners an instance satisfies, a runner's price range and price lookup.
 */
module Matching {
  import opened Wrappers
  import opened Text
  import opened Numerals
  import opened KeySort
  import opened Config
  import Inference

  /** Equal when both are lower-cased (`str.lower()`, or `re.IGNORECASE` on a literal). */
  predicate CaseEq(a: string, b: string)
  {
    Lower(a) == Lower(b)
  }

  /**
   * What the regular expression `^<clean>[a-z0-9]*\.` with `re.IGNORECASE` accepts: the name
   * starts with `clean` in any case, then a run of letters and digits, then a dot.
   */
  predicate PrefixGlobMatches(apiName: string, clean: string)
  {
    exists k :: |clean| <= k < |apiName| && apiName[k] == '.' && CaseEq(apiName[..|clean|], clean) &&
      forall j :: |clean| <= j < k ==> IsAlnum(apiName[j])
  }

  /** The search `re.match` performs after the literal: letters and digits up to a dot. */
  function AlnumThenDot(rest: string): bool
  {
    if rest == [] then false
    else if rest[0] == '.' then true
    else IsAlnum(rest[0]) && AlnumThenDot(rest[1..])
  }

  predicate AlnumRunToDot(rest: string)
  {
    exists k :: 0 <= k < |rest| && rest[k] == '.' && forall j :: 0 <= j < k ==> IsAlnum(rest[j])
  }

  lemma {:induction false} AlnumThenDotSpec(rest: string)
    ensures AlnumThenDot(rest) <==> AlnumRunToDot(rest)
  {
    if rest == [] {
    } else if rest[0] == '.' {
      assert rest[0] == '.';
    } else if IsAlnum(rest[0]) {
      AlnumThenDotSpec(rest[1..]);
      if AlnumThenDot(rest[1..]) {
        var k :| 0 <= k < |rest[1..]| && rest[1..][k] == '.' && forall j :: 0 <= j < k ==> IsAlnum(rest[1..][j]);
        assert rest[k + 1] == '.';
        assert forall j :: 0 <= j < k + 1 ==> IsAlnum(rest[j]) by {
          forall j | 0 <= j < k + 1 ensures IsAlnum(rest[j]) {
            if j > 0 { assert rest[j] == rest[1..][j - 1]; }
          }
        }
      }
    }
  }

  /** `re.match(rf"^{re.escape(clean)}[a-z0-9]*\.", api_name, re.IGNORECASE)` */
  function PrefixGlob(apiName: string, clean: string): (r: bool)
    ensures r <==> PrefixGlobMatches(apiName, clean)
  {
    if |clean| <= |apiName| && CaseEq(apiName[..|clean|], clean) then
      PrefixGlobSpec(apiName, clean);
      AlnumThenDot(apiName[|clean|..])
    else false
  }

  lemma PrefixGlobSpec(apiName: string, clean: string)
    requires |clean| <= |apiName| && CaseEq(apiName[..|clean|], clean)
    ensures AlnumThenDot(apiName[|clean|..]) <==> PrefixGlobMatches(apiName, clean)
  {
    var rest := apiName[|clean|..];
    AlnumThenDotSpec(rest);
    if AlnumRunToDot(rest) {
      var k :| 0 <= k < |rest| && rest[k] == '.' && forall j :: 0 <= j < k ==> IsAlnum(rest[j]);
      assert apiName[|clean| + k] == '.';
      assert forall j :: |clean| <= j < |clean| + k ==> IsAlnum(apiName[j]) by {
        forall j | |clean| <= j < |clean| + k ensures IsAlnum(apiName[j]) { assert apiName[j] == rest[j - |clean|]; }
      }
    }
    if PrefixGlobMatches(apiName, clean) {
      var k :| |clean| <= k < |apiName| && apiName[k] == '.' && CaseEq(apiName[..|clean|], clean) &&
        forall j :: |clean| <= j < k ==> IsAlnum(apiName[j]);
      assert rest[k - |clean|] == '.';
      assert forall j :: 0 <= j < k - |clean| ==> IsAlnum(rest[j]) by {
        forall j | 0 <= j < k - |clean| ensures IsAlnum(rest[j]) { assert rest[j] == apiName[|clean| + j]; }
      }
    }
  }

  /**
   * `matches_family_pattern`: trailing `*`s are ignored; a pattern with a dot is an exact,
   * case-insensitive name; any other pattern is a family prefix.
   */
  function MatchesFamilyPattern(apiName: string, pattern: string): (r: bool)
    ensures apiName == [] ==> !r
    ensures HasChar(StripStars(pattern), '.') ==>
              (r <==> apiName != [] && CaseEq(apiName, StripStars(pattern)))
    ensures !HasChar(StripStars(pattern), '.') ==> (r <==> PrefixGlobMatches(apiName, StripStars(pattern)))
  {
    if apiName == [] then false
    else
      var clean := StripStars(pattern);
      if HasChar(clean, '.') then Lower(apiName) == Lower(clean)
      else PrefixGlob(apiName, clean)
  }

  /** `r7a*` and `r7a` are the same pattern. */
  lemma TrailingStarIgnored(apiName: string, pattern: string)
    ensures MatchesFamilyPattern(apiName, pattern + "*") == MatchesFamilyPattern(apiName, pattern)
  {
    StripStarsAppend(pattern);
  }

  lemma {:induction false} LowerNoDot(s: string)
    requires !HasChar(s, '.')
    ensures !HasChar(Lower(s), '.')
  {
    forall i | 0 <= i < |s| ensures Lower(s)[i] != '.' {
      assert s[i] != '.';
    }
  }

  /**
   * A family-prefix pattern `p` matches exactly the names `<family>.<size>` whose family starts
   * with `p` (in any case) and continues with letters and digits only.
   */
  lemma {:induction false} PrefixGlobIsFamily(apiName: string, clean: string)
    requires !HasChar(clean, '.')
    ensures PrefixGlobMatches(apiName, clean) <==>
              var f := Inference.FamilyPrefix(apiName);
              && HasChar(apiName, '.') && |clean| <= |f| && CaseEq(f[..|clean|], clean)
              && forall j :: |clean| <= j < |f| ==> IsAlnum(f[j])
  {
    var f := Inference.FamilyPrefix(apiName);
    if PrefixGlobMatches(apiName, clean) {
      var k :| |clean| <= k < |apiName| && apiName[k] == '.' && CaseEq(apiName[..|clean|], clean) &&
        forall j :: |clean| <= j < k ==> IsAlnum(apiName[j]);
      LowerNoDot(clean);
      assert !HasChar(apiName[..|clean|], '.') by {
        forall i | 0 <= i < |clean| ensures apiName[..|clean|][i] != '.' {
          assert Lower(apiName[..|clean|])[i] == LowerChar(apiName[i]);
        }
      }
      assert |f| == k by {
        assert HasChar(apiName, '.');
        forall i | 0 <= i < k ensures apiName[i] != '.' {
          if i < |clean| { assert apiName[..|clean|][i] == apiName[i]; }
          else { assert IsAlnum(apiName[i]); }
        }
      }
      assert f[..|clean|] == apiName[..|clean|];
    }
    if HasChar(apiName, '.') && |clean| <= |f| && CaseEq(f[..|clean|], clean) &&
       (forall j :: |clean| <= j < |f| ==> IsAlnum(f[j])) {
      assert f[..|clean|] == apiName[..|clean|];
      assert apiName[|f|] == '.';
      assert forall j :: |clean| <= j < |f| ==> IsAlnum(apiName[j]) by {
        forall j | |clean| <= j < |f| ensures IsAlnum(apiName[j]) { assert f[j] == apiName[j]; }
      }
    }
  }

  /** `matches_any_pattern` */
  function MatchesAnyPattern(apiName: string, patterns: seq<string>): (r: bool)
    ensures r <==> exists i :: 0 <= i < |patterns| && MatchesFamilyPattern(apiName, patterns[i])
  {
    if patterns == [] then false
    else if MatchesFamilyPattern(apiName, patterns[0]) then true
    else
      assert forall i :: 1 <= i < |patterns| ==> patterns[i] == patterns[1..][i - 1];
      MatchesAnyPattern(apiName, patterns[1..])
  }

  /** The optional filters of `filter_instances`; None means the filter is off. */
  datatype Constraints = Constraints(
    patterns: Option<seq<string>>,
    cpu: Option<Requirement>,
    ram: Option<Requirement>,
    arches: Option<seq<string>>,
    maxPrice: Option<real>,
    ebsMin: Option<int>,
    nvme: Option<bool>)

  const NoConstraints := Constraints(None, None, None, None, None, None, None)

  /** The checks of one iteration of `filter_instances`; the price budget is strict, the EBS minimum inclusive. */
  predicate Passes(inst: Instance, c: Constraints)
  {
    && (c.patterns.None? || MatchesAnyPattern(inst.apiName, c.patterns.value))
    && (c.cpu.None? || Matches(c.cpu.value, inst.vcpus as real))
    && (c.ram.None? || Matches(c.ram.value, inst.memoryGb))
    && (c.arches.None? || inst.arch in c.arches.value)
    && (c.maxPrice.None? || (inst.price.Some? && inst.price.value < c.maxPrice.value))
    && (c.ebsMin.None? || (inst.ebsMbps.Some? && inst.ebsMbps.value >= c.ebsMin.value))
    && (c.nvme.None? || inst.nvme.GetOr(false) == c.nvme.value)
  }

  /** The instances that pass, in their original order. */
  function Filtered(instances: seq<Instance>, c: Constraints): seq<Instance>
  {
    if instances == [] then []
    else
      var last := instances[|instances| - 1];
      Filtered(instances[..|instances| - 1], c) + (if Passes(last, c) then [last] else [])
  }

  /** `filter_instances` */
  method FilterInstances(instances: seq<Instance>, c: Constraints) returns (result: seq<Instance>)
    ensures result == Filtered(instances, c)
  {
    result := [];
    for i := 0 to |instances|
      invariant result == Filtered(instances[..i], c)
    {
      assert instances[..i + 1][..i] == instances[..i];
      var inst := instances[i];
      if c.patterns.Some? && !MatchesAnyPattern(inst.apiName, c.patterns.value) {
        continue;
      }
      if c.cpu.Some? && !Matches(c.cpu.value, inst.vcpus as real) {
        continue;
      }
      if c.ram.Some? && !Matches(c.ram.value, inst.memoryGb) {
        continue;
      }
      if c.arches.Some? && inst.arch !in c.arches.value {
        continue;
      }
      if c.maxPrice.Some? && (inst.price.None? || inst.price.value >= c.maxPrice.value) {
        continue;
      }
      if c.ebsMin.Some? && (inst.ebsMbps.None? || inst.ebsMbps.value < c.ebsMin.value) {
        continue;
      }
      if c.nvme.Some? && inst.nvme.GetOr(false) != c.nvme.value {
        continue;
      }
      result := result + [inst];
    }
    assert instances[..|instances|] == instances;
  }

  lemma FilteredAppend(xs: seq<Instance>, x: Instance, c: Constraints)
    ensures Filtered(xs + [x], c) == Filtered(xs, c) + (if Passes(x, c) then [x] else [])
  {
    assert (xs + [x])[..|xs|] == xs;
  }

  /** An instance is kept exactly when it is in the input and passes every active filter. */
  lemma {:induction false} FilteredMembers(instances: seq<Instance>, c: Constraints, x: Instance)
    ensures x in Filtered(instances, c) <==> x in instances && Passes(x, c)
  {
    if instances != [] {
      var init, last := instances[..|instances| - 1], instances[|instances| - 1];
      assert instances == init + [last];
      FilteredAppend(init, last, c);
      FilteredMembers(init, c, x);
    }
  }

  /** With every filter off, the input comes back unchanged. */
  lemma {:induction false} FilteredNothing(instances: seq<Instance>)
    ensures Filtered(instances, NoConstraints) == instances
  {
    if instances != [] {
      var init, last := instances[..|instances| - 1], instances[|instances| - 1];
      assert instances == init + [last];
      FilteredNothing(init);
    }
  }

  /** `c2` filters at least as much as `c1`: every active filter of `c1` is active in `c2` and no looser. */
  predicate Tighter(c2: Constraints, c1: Constraints)
  {
    && (c1.patterns.None? || (c2.patterns.Some? && forall p :: p in c2.patterns.value ==> p in c1.patterns.value))
    && (c1.cpu.None? || c2.cpu == c1.cpu)
    && (c1.ram.None? || c2.ram == c1.ram)
    && (c1.arches.None? || (c2.arches.Some? && forall a :: a in c2.arches.value ==> a in c1.arches.value))
    && (c1.maxPrice.None? || (c2.maxPrice.Some? && c2.maxPrice.value <= c1.maxPrice.value))
    && (c1.ebsMin.None? || (c2.ebsMin.Some? && c2.ebsMin.value >= c1.ebsMin.value))
    && (c1.nvme.None? || c2.nvme == c1.nvme)
  }

  lemma TighterPasses(x: Instance, c2: Constraints, c1: Constraints)
    requires Tighter(c2, c1) && Passes(x, c2)
    ensures Passes(x, c1)
  {
    if c1.patterns.Some? {
      var ps := c2.patterns.value;
      var i :| 0 <= i < |ps| && MatchesFamilyPattern(x.apiName, ps[i]);
      assert ps[i] in c1.patterns.value;
      var j :| 0 <= j < |c1.patterns.value| && c1.patterns.value[j] == ps[i];
    }
  }

  /** Tightening the filters only removes instances: filtering the looser result again gives the tighter one. */
  lemma {:induction false} FilterMonotone(instances: seq<Instance>, c2: Constraints, c1: Constraints)
    requires Tighter(c2, c1)
    ensures Filtered(Filtered(instances, c1), c2) == Filtered(instances, c2)
  {
    if instances != [] {
      var init, last := instances[..|instances| - 1], instances[|instances| - 1];
      assert instances == init + [last];
      FilterMonotone(init, c2, c1);
      var f1 := Filtered(init, c1);
      FilteredAppend(init, last, c1);
      FilteredAppend(init, last, c2);
      if Passes(last, c1) {
        FilteredAppend(f1, last, c2);
        assert Filtered(instances, c1) == f1 + [last];
      } else {
        if Passes(last, c2) {
          TighterPasses(last, c2, c1);
        }
        assert Filtered(instances, c1) == f1;
      }
    }
  }

  /** Whether a runner configuration accepts an instance (the checks in `find_matching_runners`). */
  predicate RunnerMatches(inst: Instance, cfg: Runner)
  {
    && MatchesAnyPattern(inst.apiName, cfg.families)
    && (cfg.cpu.None? || Matches(cfg.cpu.value, inst.vcpus as real))
    && (cfg.ram.None? || Matches(cfg.ram.value, inst.memoryGb))
  }

  /** The filters a runner configuration stands for. */
  function RunnerConstraints(cfg: Runner): Constraints
  {
    Constraints(Some(cfg.families), cfg.cpu, cfg.ram, None, None, None, None)
  }

  /** A runner accepts an instance exactly when `filter_instances` with the runner's filters keeps it. */
  lemma RunnerMatchesIsFilter(inst: Instance, cfg: Runner)
    ensures RunnerMatches(inst, cfg) <==> Filtered([inst], RunnerConstraints(cfg)) == [inst]
  {
    assert [inst][..0] == [];
  }

  /** A runner without family patterns never matches, whatever its cpu/ram requirements. */
  lemma NoFamiliesNoMatch(inst: Instance, cfg: Runner)
    requires cfg.families == []
    ensures !RunnerMatches(inst, cfg)
  {
  }

  /** The names of the runners that accept `inst`, in configuration order. */
  function MatchingRunnerNames(inst: Instance, configs: seq<(string, Runner)>): seq<string>
  {
    if configs == [] then []
    else
      var (name, cfg) := configs[|configs| - 1];
      MatchingRunnerNames(inst, configs[..|configs| - 1]) + (if RunnerMatches(inst, cfg) then [name] else [])
  }

  /** `find_matching_runners` */
  method FindMatchingRunners(inst: Instance, configs: seq<(string, Runner)>) returns (matching: seq<string>)
    ensures matching == MatchingRunnerNames(inst, configs)
  {
    matching := [];
    for i := 0 to |configs|
      invariant matching == MatchingRunnerNames(inst, configs[..i])
    {
      assert configs[..i + 1][..i] == configs[..i];
      var (name, cfg) := configs[i];
      if !MatchesAnyPattern(inst.apiName, cfg.families) {
        continue;
      }
      if cfg.cpu.Some? && !Matches(cfg.cpu.value, inst.vcpus as real) {
        continue;
      }
      if cfg.ram.Some? && !Matches(cfg.ram.value, inst.memoryGb) {
        continue;
      }
      matching := matching + [name];
    }
    assert configs[..|configs|] == configs;
  }

  lemma MatchingRunnerNamesAppend(configs: seq<(string, Runner)>, e: (string, Runner), inst: Instance)
    ensures MatchingRunnerNames(inst, configs + [e]) ==
              MatchingRunnerNames(inst, configs) + (if RunnerMatches(inst, e.1) then [e.0] else [])
  {
    assert (configs + [e])[..|configs|] == configs;
  }

  /** A name is reported exactly when some runner of that name accepts the instance. */
  lemma {:induction false} MatchingRunnerNamesMembers(inst: Instance, configs: seq<(string, Runner)>, name: string)
    ensures name in MatchingRunnerNames(inst, configs) <==>
              exists i :: 0 <= i < |configs| && configs[i].0 == name && RunnerMatches(inst, configs[i].1)
  {
    if configs != [] {
      var init, last := configs[..|configs| - 1], configs[|configs| - 1];
      assert configs == init + [last];
      MatchingRunnerNamesAppend(init, last, inst);
      MatchingRunnerNamesMembers(inst, init, name);
      assert forall i :: 0 <= i < |init| ==> init[i] == configs[i];
    }
  }

  /** The result of `get_runner_price_range`; `NoRange` is the all-None tuple. */
  datatype PriceRange = NoRange | PriceRange(minPrice: real, maxPrice: real, cheapest: string, dearest: string)

  /** The instances a runner accepts (patterns, then cpu/ram) that have an on-demand price. */
  function PricedMatches(cfg: Runner, instances: seq<Instance>): seq<Instance>
  {
    if instances == [] then []
    else
      var last := instances[|instances| - 1];
      PricedMatches(cfg, instances[..|instances| - 1]) +
        (if RunnerMatches(last, cfg) && last.price.Some? then [last] else [])
  }

  /** The sort key `lambda x: x["price"]`. */
  function PriceKey(inst: Instance): Key
  {
    NumKey(false, inst.price.GetOr(0.0))
  }

  /** The price range: cheapest and dearest of the priced matches after a stable sort by price. */
  function RunnerPriceRange(cfg: Runner, instances: seq<Instance>): PriceRange
  {
    if cfg.families == [] then NoRange else RangeOf(PricedMatches(cfg, instances))
  }

  /** The cheapest and dearest of priced instances after a stable sort by price. */
  function RangeOf(matching: seq<Instance>): PriceRange
  {
    if matching == [] then NoRange
    else
      var sorted := SortBy(PriceKey, matching);
      var cheapest, dearest := sorted[0], sorted[|sorted| - 1];
      PriceRange(cheapest.price.GetOr(0.0), dearest.price.GetOr(0.0), cheapest.apiName, dearest.apiName)
  }

  /** `get_runner_price_range` */
  method GetRunnerPriceRange(cfg: Runner, instances: seq<Instance>) returns (r: PriceRange)
    ensures r == RunnerPriceRange(cfg, instances)
  {
    if cfg.families == [] {
      return NoRange;
    }
    var matching := [];
    for i := 0 to |instances|
      invariant matching == PricedMatches(cfg, instances[..i])
    {
      assert instances[..i + 1][..i] == instances[..i];
      var inst := instances[i];
      if MatchesAnyPattern(inst.apiName, cfg.families) {
        if cfg.cpu.Some? && !Matches(cfg.cpu.value, inst.vcpus as real) {
          continue;
        }
        if cfg.ram.Some? && !Matches(cfg.ram.value, inst.memoryGb) {
          continue;
        }
        if inst.price.Some? {
          matching := matching + [inst];
        }
      }
    }
    assert instances[..|instances|] == instances;
    if matching == [] {
      return NoRange;
    }
    var sorted := SortBy(PriceKey, matching);
    var cheapest := sorted[0];
    var dearest := sorted[|sorted| - 1];
    r := PriceRange(cheapest.price.GetOr(0.0), dearest.price.GetOr(0.0), cheapest.apiName, dearest.apiName);
  }

  lemma PricedMatchesAppend(cfg: Runner, xs: seq<Instance>, x: Instance)
    ensures PricedMatches(cfg, xs + [x]) ==
              PricedMatches(cfg, xs) + (if RunnerMatches(x, cfg) && x.price.Some? then [x] else [])
  {
    assert (xs + [x])[..|xs|] == xs;
  }

  /** The priced matches are the accepted instances of the input that have a price. */
  lemma {:induction false} PricedMatchesMembers(cfg: Runner, instances: seq<Instance>, x: Instance)
    ensures x in PricedMatches(cfg, instances) <==> x in instances && RunnerMatches(x, cfg) && x.price.Some?
  {
    if instances != [] {
      var init, last := instances[..|instances| - 1], instances[|instances| - 1];
      assert instances == init + [last];
      PricedMatchesAppend(cfg, init, last);
      PricedMatchesMembers(cfg, init, x);
    }
  }

  /** No range exactly when the runner has no families or no accepted instance has a price. */
  lemma NoRangeWhen(cfg: Runner, instances: seq<Instance>)
    ensures RunnerPriceRange(cfg, instances) == NoRange <==>
              cfg.families == [] || forall x :: x in instances && RunnerMatches(x, cfg) ==> x.price.None?
  {
    var m := PricedMatches(cfg, instances);
    forall x ensures x in m <==> x in instances && RunnerMatches(x, cfg) && x.price.Some? {
      PricedMatchesMembers(cfg, instances, x);
    }
    if m != [] {
      assert m[0] in m;
    }
  }

  lemma PricedMatchesPriced(cfg: Runner, instances: seq<Instance>)
    ensures forall x :: x in PricedMatches(cfg, instances) ==> x.price.Some?
  {
    forall x | x in PricedMatches(cfg, instances) ensures x.price.Some? {
      PricedMatchesMembers(cfg, instances, x);
    }
  }

  /**
   * The range bounds every priced match: the minimum and maximum are prices of accepted
   * instances, and every accepted priced instance lies between them.
   */
  lemma PriceRangeBounds(cfg: Runner, instances: seq<Instance>, x: Instance)
    requires RunnerPriceRange(cfg, instances).PriceRange?
    requires x in instances && RunnerMatches(x, cfg) && x.price.Some?
    ensures var r := RunnerPriceRange(cfg, instances);
      r.minPrice <= x.price.value <= r.maxPrice
  {
    var m := PricedMatches(cfg, instances);
    PricedMatchesMembers(cfg, instances, x);
    SortByBounds(PriceKey, m, x);
  }

  /** The range is read off the ends of the priced instances sorted by price. */
  lemma RangeOfShape(m: seq<Instance>)
    requires RangeOf(m).PriceRange?
    ensures var s := SortBy(PriceKey, m);
      && m != [] && |s| == |m| && s[0] in m && s[|s| - 1] in m
      && RangeOf(m).minPrice == s[0].price.GetOr(0.0) && RangeOf(m).cheapest == s[0].apiName
      && RangeOf(m).maxPrice == s[|s| - 1].price.GetOr(0.0) && RangeOf(m).dearest == s[|s| - 1].apiName
  {
    SortByEnds(PriceKey, m);
  }

  /** Both ends of the range are accepted instances carrying those prices. */
  lemma PriceRangeEnds(cfg: Runner, instances: seq<Instance>)
    requires RunnerPriceRange(cfg, instances).PriceRange?
    ensures var r := RunnerPriceRange(cfg, instances);
      && (exists x :: x in instances && RunnerMatches(x, cfg) && x.price == Some(r.minPrice) && x.apiName == r.cheapest)
      && (exists x :: x in instances && RunnerMatches(x, cfg) && x.price == Some(r.maxPrice) && x.apiName == r.dearest)
  {
    var m := PricedMatches(cfg, instances);
    var s := SortBy(PriceKey, m);
    RangeOfShape(PricedMatches(cfg, instances));
    var a, b := s[0], s[|s| - 1];
    PricedMatchesMembers(cfg, instances, a);
    PricedMatchesMembers(cfg, instances, b);
  }

  /** Among priced instances, the range's cheapest is the first at the minimum price. */
  lemma CheapestOf(m: seq<Instance>, i: nat)
    requires forall x :: x in m ==> x.price.Some?
    requires RangeOf(m).PriceRange? && i < |m| && m[i].price == Some(RangeOf(m).minPrice)
    requires forall j :: 0 <= j < i ==> m[j].price != m[i].price
    ensures RangeOf(m).cheapest == m[i].apiName
  {
    RangeOfShape(m);
    var s := SortBy(PriceKey, m);
    assert s[0].price.Some?;
    forall j | 0 <= j < i ensures PriceKey(m[j]) != PriceKey(m[i]) {
      assert m[j] in m;
    }
    SortByFirst(PriceKey, m, i);
  }

  /** Among priced instances, the range's dearest is the last at the maximum price. */
  lemma DearestOf(m: seq<Instance>, i: nat)
    requires forall x :: x in m ==> x.price.Some?
    requires RangeOf(m).PriceRange? && i < |m| && m[i].price == Some(RangeOf(m).maxPrice)
    requires forall j :: i < j < |m| ==> m[j].price != m[i].price
    ensures RangeOf(m).dearest == m[i].apiName
  {
    RangeOfShape(m);
    var s := SortBy(PriceKey, m);
    assert s[|s| - 1].price.Some?;
    forall j | i < j < |m| ensures PriceKey(m[j]) != PriceKey(m[i]) {
      assert m[j] in m;
    }
    SortByLast(PriceKey, m, i);
  }

  /** Ties are broken by input order: the cheapest is the first accepted instance at the minimum price. */
  lemma CheapestIsFirst(cfg: Runner, instances: seq<Instance>, i: nat)
    requires RunnerPriceRange(cfg, instances).PriceRange?
    requires var m := PricedMatches(cfg, instances);
      i < |m| && m[i].price == Some(RunnerPriceRange(cfg, instances).minPrice) &&
      forall j :: 0 <= j < i ==> m[j].price != m[i].price
    ensures RunnerPriceRange(cfg, instances).cheapest == PricedMatches(cfg, instances)[i].apiName
  {
    PricedMatchesPriced(cfg, instances);
    CheapestOf(PricedMatches(cfg, instances), i);
  }

  /** The dearest is the last accepted instance at the maximum price. */
  lemma DearestIsLast(cfg: Runner, instances: seq<Instance>, i: nat)
    requires RunnerPriceRange(cfg, instances).PriceRange?
    requires var m := PricedMatches(cfg, instances);
      i < |m| && m[i].price == Some(RunnerPriceRange(cfg, instances).maxPrice) &&
      forall j :: i < j < |m| ==> m[j].price != m[i].price
    ensures RunnerPriceRange(cfg, instances).dearest == PricedMatches(cfg, instances)[i].apiName
  {
    PricedMatchesPriced(cfg, instances);
    DearestOf(PricedMatches(cfg, instances), i);
  }

  /** `get_instance_price`: the price of the first instance with exactly this name. */
  function InstancePrice(name: string, instances: seq<Instance>): Option<real>
  {
    if instances == [] then None
    else if instances[0].apiName == name then instances[0].price
    else InstancePrice(name, instances[1..])
  }

  method GetInstancePrice(name: string, instances: seq<Instance>) returns (r: Option<real>)
    ensures r == InstancePrice(name, instances)
  {
    for i := 0 to |instances|
      invariant InstancePrice(name, instances[i..]) == InstancePrice(name, instances)
    {
      assert instances[i..][1..] == instances[i + 1..];
      if instances[i].apiName == name {
        return instances[i].price;
      }
    }
    return None;
  }

  /** The lookup finds the first instance with the name, and None when no instance has it. */
  lemma {:induction false} InstancePriceFirst(name: string, instances: seq<Instance>)
    ensures (forall j :: 0 <= j < |instances| ==> instances[j].apiName != name) ==> InstancePrice(name, instances) == None
    ensures forall i ::
              (0 <= i < |instances| && instances[i].apiName == name &&
               forall j :: 0 <= j < i ==> instances[j].apiName != name) ==>
              InstancePrice(name, instances) == instances[i].price
  {
    if instances != [] {
      InstancePriceFirst(name, instances[1..]);
      assert forall j :: 1 <= j < |instances| ==> instances[j] == instances[1..][j - 1];
    }
  }
}
