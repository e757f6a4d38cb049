/**
 * Glob synthesis: compressing a selection of instances into a short sorted list of family
 * patterns (`c8*`, `c8g*`) or exact names, subject to a price budget over the selection and
 * an NVMe rule over the whole universe of instances.
 */
module Synthesis {
  import opened Wrappers
  import opened Text
  import opened Order
  import opened KeySort
  import opened Config
  import opened Matching
  import Inference

  /** The inputs of `synthesize_globs`. */
  datatype Ctx = Ctx(selected: seq<Instance>, universe: seq<Instance>, budget: Option<real>, nvme: Option<bool>)

  /** `get_family_prefix(name)[:2]`, the key of the first grouping. */
  function PrefixOf(x: Instance): string
  {
    var f := Inference.FamilyPrefix(x.apiName);
    if |f| <= 2 then f else f[..2]
  }

  /** `get_family_prefix(name)`, the key of the second grouping. */
  function VariantOf(x: Instance): string
  {
    Inference.FamilyPrefix(x.apiName)
  }

  /** A dict from keys to lists of instances, in insertion order. */
  type Groups = seq<(string, seq<Instance>)>

  /** `groups.setdefault(k, []).append(x)` */
  function AddToGroup(groups: Groups, k: string, x: Instance): Groups
  {
    if groups == [] then [(k, [x])]
    else if groups[0].0 == k then [(k, groups[0].1 + [x])] + groups[1..]
    else [groups[0]] + AddToGroup(groups[1..], k, x)
  }

  /** The dict a `setdefault`-append loop over `xs` builds. */
  function GroupBy(keyOf: Instance -> string, xs: seq<Instance>): Groups
  {
    if xs == [] then []
    else AddToGroup(GroupBy(keyOf, xs[..|xs| - 1]), keyOf(xs[|xs| - 1]), xs[|xs| - 1])
  }

  /** `sorted(groups.items())`: the keys are distinct, so the order is that of the keys. */
  function GroupKey(g: (string, seq<Instance>)): Key
  {
    StrKey(g.0)
  }

  /** The known prices of the instances of `xs` that `glob` matches. */
  function PricesOf(xs: seq<Instance>, glob: string): seq<real>
  {
    PricesWhere(xs, FamilyMatch(glob))
  }

  /** The test `match_family_pattern(inst["api_name"], glob)`. */
  function FamilyMatch(glob: string): Instance -> bool
  {
    (x: Instance) => MatchesFamilyPattern(x.apiName, glob)
  }

  /** The known prices of the instances of `xs` that satisfy `p`, in order. */
  function PricesWhere(xs: seq<Instance>, p: Instance -> bool): seq<real>
  {
    if xs == [] then []
    else
      var last := xs[|xs| - 1];
      PricesWhere(xs[..|xs| - 1], p) + (if p(last) && last.price.Some? then [last.price.value] else [])
  }

  /** `max(xs)` */
  function MaxOf(xs: seq<real>): (m: real)
    requires xs != []
    ensures m in xs && forall i :: 0 <= i < |xs| ==> xs[i] <= m
  {
    if |xs| == 1 then xs[0]
    else
      var m := MaxOf(xs[..|xs| - 1]);
      assert forall i :: 0 <= i < |xs| - 1 ==> xs[i] == xs[..|xs| - 1][i];
      if xs[|xs| - 1] > m then xs[|xs| - 1] else m
  }

  /** `max_price_for_glob_in_selected`: 0.0 when no matching selected instance has a price. */
  function MaxPriceInSelected(ctx: Ctx, glob: string): real
  {
    var prices := PricesOf(ctx.selected, glob);
    if prices == [] then 0.0 else MaxOf(prices)
  }

  /** `glob_matches_non_nvme_in_universe`; a missing flag reads as false. */
  predicate MatchesNonNvme(ctx: Ctx, glob: string)
  {
    exists i :: 0 <= i < |ctx.universe| && MatchesFamilyPattern(ctx.universe[i].apiName, glob) &&
      !ctx.universe[i].nvme.GetOr(false)
  }

  /** `glob_is_valid` */
  predicate GlobIsValid(ctx: Ctx, glob: string)
  {
    && !(ctx.budget.Some? && MaxPriceInSelected(ctx, glob) > ctx.budget.value)
    && !(ctx.nvme == Some(true) && MatchesNonNvme(ctx, glob))
  }

  /** The names of `xs`, in order. */
  function Names(xs: seq<Instance>): (r: seq<string>)
    ensures |r| == |xs| && forall i :: 0 <= i < |xs| ==> r[i] == xs[i].apiName
  {
    if xs == [] then [] else Names(xs[..|xs| - 1]) + [xs[|xs| - 1].apiName]
  }

  /** What one variant group contributes: its glob when valid, its exact names otherwise. */
  function VariantStep(ctx: Ctx, g: (string, seq<Instance>)): seq<string>
  {
    if GlobIsValid(ctx, g.0 + "*") then [g.0 + "*"] else Names(g.1)
  }

  function VariantGlobs(ctx: Ctx, vs: Groups): seq<string>
  {
    if vs == [] then [] else VariantGlobs(ctx, vs[..|vs| - 1]) + VariantStep(ctx, vs[|vs| - 1])
  }

  /** The variant groups of one prefix group, sorted. */
  function VariantGroups(members: seq<Instance>): Groups
  {
    SortBy(GroupKey, GroupBy(VariantOf, members))
  }

  /** What one prefix group contributes: its glob when valid, else the contributions of its variants. */
  function PrefixStep(ctx: Ctx, g: (string, seq<Instance>)): seq<string>
  {
    if GlobIsValid(ctx, g.0 + "*") then [g.0 + "*"] else VariantGlobs(ctx, VariantGroups(g.1))
  }

  function PrefixGlobs(ctx: Ctx, gs: Groups): seq<string>
  {
    if gs == [] then [] else PrefixGlobs(ctx, gs[..|gs| - 1]) + PrefixStep(ctx, gs[|gs| - 1])
  }

  /** The prefix groups of the selection, sorted. */
  function PrefixGroups(ctx: Ctx): Groups
  {
    SortBy(GroupKey, GroupBy(PrefixOf, ctx.selected))
  }

  /** The `result` list before duplicates and subsumed globs are removed. */
  function Candidates(ctx: Ctx): seq<string>
  {
    PrefixGlobs(ctx, PrefixGroups(ctx))
  }

  /** `_glob_subsumes(broader, narrower)` */
  predicate GlobSubsumes(broader: string, narrower: string)
  {
    if !EndsWithStar(broader) then false
    else if HasChar(narrower, '.') && !EndsWithStar(narrower) then false
    else
      var b := StripStars(broader);
      var n := StripStars(narrower);
      StartsWith(n, b) && n != b
  }

  /** Subsumption is a strict order: never reflexive, never both ways round, and transitive. */
  lemma GlobSubsumesStrict(a: string, b: string, c: string)
    ensures !GlobSubsumes(a, a)
    ensures GlobSubsumes(a, b) ==> !GlobSubsumes(b, a)
    ensures GlobSubsumes(a, b) && GlobSubsumes(b, c) ==> GlobSubsumes(a, c)
  {
    var sa, sb, sc := StripStars(a), StripStars(b), StripStars(c);
    if GlobSubsumes(a, b) && GlobSubsumes(b, c) {
      StartsWithTransitive(sc, sb, sa);
    }
  }

  /**
   * `m5d*` subsumes `m5dn*`: every name the narrower glob matches, such as `m5dn.xlarge`, the
   * broader one matches too, when the narrower stem adds only letters and digits.
   */
  lemma GlobSubsumesCovers(broader: string, narrower: string, apiName: string)
    requires GlobSubsumes(broader, narrower) && !HasChar(StripStars(narrower), '.')
    requires forall j :: |StripStars(broader)| <= j < |StripStars(narrower)| ==> IsAlnum(StripStars(narrower)[j])
    ensures MatchesFamilyPattern(apiName, narrower) ==> MatchesFamilyPattern(apiName, broader)
  {
    var b, n := StripStars(broader), StripStars(narrower);
    if MatchesFamilyPattern(apiName, narrower) {
      assert forall i :: 0 <= i < |b| ==> b[i] == n[i] by { assert n[..|b|] == b; }
      assert !HasChar(b, '.');
      var k :| |n| <= k < |apiName| && apiName[k] == '.' && CaseEq(apiName[..|n|], n) &&
               forall j :: |n| <= j < k ==> IsAlnum(apiName[j]);
      assert forall i :: 0 <= i < |n| ==> LowerChar(apiName[i]) == LowerChar(n[i]) by {
        forall i | 0 <= i < |n| ensures LowerChar(apiName[i]) == LowerChar(n[i]) {
          assert Lower(apiName[..|n|])[i] == Lower(n)[i];
        }
      }
      assert CaseEq(apiName[..|b|], b);
      forall j | |b| <= j < k ensures IsAlnum(apiName[j]) {
        if j < |n| {
          AlnumCaseEq(apiName[j], n[j]);
        }
      }
    }
  }

  /** Some other element of `all` subsumes `g`. */
  predicate SubsumedIn(all: seq<string>, g: string)
  {
    exists t :: 0 <= t < |all| && all[t] != g && GlobSubsumes(all[t], g)
  }

  /** The elements of `xs` that no other element of `all` subsumes, in order. */
  function RemoveSubsumedFrom(all: seq<string>, xs: seq<string>): seq<string>
  {
    if xs == [] then []
    else
      RemoveSubsumedFrom(all, xs[..|xs| - 1]) +
        (if SubsumedIn(all, xs[|xs| - 1]) then [] else [xs[|xs| - 1]])
  }

  /** The list `synthesize_globs` returns. */
  function GlobsOf(ctx: Ctx): seq<string>
  {
    var unique := SortDedup(Candidates(ctx));
    RemoveSubsumedFrom(unique, unique)
  }

  /** A `setdefault(...).append` loop over `xs`. */
  method GroupInstances(keyOf: Instance -> string, xs: seq<Instance>) returns (groups: Groups)
    ensures groups == GroupBy(keyOf, xs)
  {
    groups := [];
    for i := 0 to |xs|
      invariant groups == GroupBy(keyOf, xs[..i])
    {
      assert xs[..i + 1][..i] == xs[..i];
      groups := AddToGroup(groups, keyOf(xs[i]), xs[i]);
    }
    assert xs[..|xs|] == xs;
  }

  lemma VariantGlobsAppend(ctx: Ctx, vs: Groups, g: (string, seq<Instance>))
    ensures VariantGlobs(ctx, vs + [g]) == VariantGlobs(ctx, vs) + VariantStep(ctx, g)
  {
    assert (vs + [g])[..|vs|] == vs;
  }

  /** One more variant group of the loop's prefix adds its step. */
  lemma VariantGlobsPrefix(ctx: Ctx, vs: Groups, l: nat)
    requires l < |vs|
    ensures VariantGlobs(ctx, vs[..l + 1]) == VariantGlobs(ctx, vs[..l]) + VariantStep(ctx, vs[l])
  {
    assert vs[..l + 1] == vs[..l] + [vs[l]];
    VariantGlobsAppend(ctx, vs[..l], vs[l]);
  }

  /** One more group of the loop's prefix adds its step. */
  lemma PrefixGlobsPrefix(ctx: Ctx, gs: Groups, j: nat)
    requires j < |gs|
    ensures PrefixGlobs(ctx, gs[..j + 1]) == PrefixGlobs(ctx, gs[..j]) + PrefixStep(ctx, gs[j])
  {
    assert gs[..j + 1] == gs[..j] + [gs[j]];
    PrefixGlobsAppend(ctx, gs[..j], gs[j]);
  }

  lemma PrefixGlobsAppend(ctx: Ctx, gs: Groups, g: (string, seq<Instance>))
    ensures PrefixGlobs(ctx, gs + [g]) == PrefixGlobs(ctx, gs) + PrefixStep(ctx, g)
  {
    assert (gs + [g])[..|gs|] == gs;
  }

  /** The loop appending the exact names of a variant group. */
  method ExactNames(xs: seq<Instance>) returns (names: seq<string>)
    ensures names == Names(xs)
  {
    names := [];
    for m := 0 to |xs|
      invariant names == Names(xs[..m])
    {
      assert xs[..m + 1][..m] == xs[..m];
      names := names + [xs[m].apiName];
    }
    assert xs[..|xs|] == xs;
  }

  /** The body of the inner loop: one variant's glob when valid, else its exact names. */
  method EmitVariant(ctx: Ctx, v: (string, seq<Instance>)) returns (emitted: seq<string>)
    ensures emitted == VariantStep(ctx, v)
  {
    var (variant, variantSelected) := v;
    var variantGlob := variant + "*";
    if GlobIsValid(ctx, variantGlob) {
      emitted := [variantGlob];
    } else {
      emitted := ExactNames(variantSelected);
    }
  }

  /** The inner loops for a prefix group whose glob failed: one glob or the exact names per variant. */
  method EmitVariants(ctx: Ctx, prefixSelected: seq<Instance>) returns (emitted: seq<string>)
    ensures emitted == VariantGlobs(ctx, VariantGroups(prefixSelected))
  {
    var variants := GroupInstances(VariantOf, prefixSelected);
    var sortedVariants: Groups := SortBy(GroupKey, variants);
    emitted := [];
    for l := 0 to |sortedVariants|
      invariant emitted == VariantGlobs(ctx, sortedVariants[..l])
    {
      var step := EmitVariant(ctx, sortedVariants[l]);
      VariantGlobsPrefix(ctx, sortedVariants, l);
      emitted := emitted + step;
    }
    assert sortedVariants[..|sortedVariants|] == sortedVariants;
  }

  /** The flag loop: does some other element of `unique` subsume `glob`? */
  method IsSubsumed(unique: seq<string>, glob: string) returns (subsumed: bool)
    ensures subsumed == SubsumedIn(unique, glob)
  {
    subsumed := false;
    var o := 0;
    while o < |unique|
      invariant 0 <= o <= |unique|
      invariant forall t :: 0 <= t < o ==> !(unique[t] != glob && GlobSubsumes(unique[t], glob))
    {
      var other := unique[o];
      if other != glob && GlobSubsumes(other, glob) {
        subsumed := true;
        break;
      }
      o := o + 1;
    }
  }

  /** The loop building `final`: the elements of `unique` that no other element subsumes. */
  method RemoveSubsumed(unique: seq<string>) returns (final: seq<string>)
    ensures final == RemoveSubsumedFrom(unique, unique)
  {
    final := [];
    for g := 0 to |unique|
      invariant final == RemoveSubsumedFrom(unique, unique[..g])
    {
      assert unique[..g + 1][..g] == unique[..g];
      var glob := unique[g];
      var subsumed := IsSubsumed(unique, glob);
      if !subsumed {
        final := final + [glob];
      }
    }
    assert unique[..|unique|] == unique;
  }

  /** The body of the outer loop: the prefix glob when valid, else what its variants give. */
  method EmitPrefixGroup(ctx: Ctx, p: (string, seq<Instance>)) returns (emitted: seq<string>)
    ensures emitted == PrefixStep(ctx, p)
  {
    var (prefix, prefixSelected) := p;
    var prefixGlob := prefix + "*";
    if GlobIsValid(ctx, prefixGlob) {
      emitted := [prefixGlob];
    } else {
      emitted := EmitVariants(ctx, prefixSelected);
    }
  }

  /** The loop over the sorted prefix groups filling `result`. */
  method EmitPrefixGroups(ctx: Ctx, groups: Groups) returns (result: seq<string>)
    ensures result == PrefixGlobs(ctx, groups)
  {
    result := [];
    for j := 0 to |groups|
      invariant result == PrefixGlobs(ctx, groups[..j])
    {
      var step := EmitPrefixGroup(ctx, groups[j]);
      PrefixGlobsPrefix(ctx, groups, j);
      result := result + step;
    }
    assert groups[..|groups|] == groups;
  }

  /** `synthesize_globs` */
  method SynthesizeGlobs(selected: seq<Instance>, universe: seq<Instance>, budget: Option<real>, nvme: Option<bool>)
    returns (final: seq<string>)
    ensures final == GlobsOf(Ctx(selected, universe, budget, nvme))
  {
    var ctx := Ctx(selected, universe, budget, nvme);
    var byPrefix := GroupInstances(PrefixOf, selected);
    var groups: Groups := SortBy(GroupKey, byPrefix);
    var result := EmitPrefixGroups(ctx, groups);
    var unique := SortDedup(result);
    final := RemoveSubsumed(unique);
  }

  // Grouping.

  /** `y` is in the group with key `k`. */
  predicate InGroups(gs: Groups, k: string, y: Instance)
  {
    exists i :: 0 <= i < |gs| && gs[i].0 == k && y in gs[i].1
  }

  lemma InGroupsCons(g: (string, seq<Instance>), rest: Groups, k: string, y: Instance)
    ensures InGroups([g] + rest, k, y) <==> (g.0 == k && y in g.1) || InGroups(rest, k, y)
  {
    var gs := [g] + rest;
    if InGroups(rest, k, y) {
      var i :| 0 <= i < |rest| && rest[i].0 == k && y in rest[i].1;
      assert gs[i + 1] == rest[i];
    }
    if g.0 == k && y in g.1 {
      assert gs[0] == g;
    }
    if InGroups(gs, k, y) {
      var i :| 0 <= i < |gs| && gs[i].0 == k && y in gs[i].1;
      if i > 0 { assert rest[i - 1] == gs[i]; }
    }
  }

  lemma {:induction false} AddToGroupMembers(gs: Groups, k: string, x: Instance, k2: string, y: Instance)
    ensures InGroups(AddToGroup(gs, k, x), k2, y) <==> InGroups(gs, k2, y) || (k2 == k && y == x)
  {
    if gs == [] {
      assert AddToGroup(gs, k, x) == [(k, [x])] + [];
      InGroupsCons((k, [x]), [], k2, y);
    } else {
      assert gs == [gs[0]] + gs[1..];
      InGroupsCons(gs[0], gs[1..], k2, y);
      if gs[0].0 == k {
        InGroupsCons((k, gs[0].1 + [x]), gs[1..], k2, y);
      } else {
        AddToGroupMembers(gs[1..], k, x, k2, y);
        InGroupsCons(gs[0], AddToGroup(gs[1..], k, x), k2, y);
      }
    }
  }

  /** An instance is in the group of key `k` exactly when it is in the input and its key is `k`. */
  lemma {:induction false} GroupByMembers(keyOf: Instance -> string, xs: seq<Instance>, k: string, y: Instance)
    ensures InGroups(GroupBy(keyOf, xs), k, y) <==> y in xs && keyOf(y) == k
  {
    if xs != [] {
      var init, last := xs[..|xs| - 1], xs[|xs| - 1];
      assert xs == init + [last];
      GroupByMembers(keyOf, init, k, y);
      AddToGroupMembers(GroupBy(keyOf, init), keyOf(last), last, k, y);
    }
  }

  predicate NonEmptyGroups(gs: Groups)
  {
    forall i :: 0 <= i < |gs| ==> gs[i].1 != []
  }

  lemma {:induction false} AddToGroupNonEmpty(gs: Groups, k: string, x: Instance)
    requires NonEmptyGroups(gs)
    ensures NonEmptyGroups(AddToGroup(gs, k, x))
  {
    if gs != [] && gs[0].0 != k {
      AddToGroupNonEmpty(gs[1..], k, x);
      var r := AddToGroup(gs, k, x);
      assert forall i :: 1 <= i < |r| ==> r[i] == AddToGroup(gs[1..], k, x)[i - 1];
    }
  }

  /** Every group holds at least one instance. */
  lemma {:induction false} GroupByNonEmpty(keyOf: Instance -> string, xs: seq<Instance>)
    ensures NonEmptyGroups(GroupBy(keyOf, xs))
  {
    if xs != [] {
      GroupByNonEmpty(keyOf, xs[..|xs| - 1]);
      AddToGroupNonEmpty(GroupBy(keyOf, xs[..|xs| - 1]), keyOf(xs[|xs| - 1]), xs[|xs| - 1]);
    }
  }

  /** Sorting the groups keeps their contents. */
  lemma SortedGroups(gs: Groups, k: string, y: Instance)
    ensures InGroups(SortBy(GroupKey, gs), k, y) <==> InGroups(gs, k, y)
  {
    var r := SortBy(GroupKey, gs);
    SortByMembers(GroupKey, gs);
    if InGroups(r, k, y) {
      var i :| 0 <= i < |r| && r[i].0 == k && y in r[i].1;
      assert r[i] in gs;
    }
    if InGroups(gs, k, y) {
      var i :| 0 <= i < |gs| && gs[i].0 == k && y in gs[i].1;
      assert gs[i] in r;
    }
  }

  lemma SortedGroupsNonEmpty(gs: Groups)
    requires NonEmptyGroups(gs)
    ensures NonEmptyGroups(SortBy(GroupKey, gs))
  {
    var r := SortBy(GroupKey, gs);
    SortByMembers(GroupKey, gs);
    forall i | 0 <= i < |r| ensures r[i].1 != [] {
      assert r[i] in multiset(r);
      var j :| 0 <= j < |gs| && gs[j] == r[i];
    }
  }

  lemma PrefixGroupsMembers(ctx: Ctx, k: string, y: Instance)
    ensures InGroups(PrefixGroups(ctx), k, y) <==> y in ctx.selected && PrefixOf(y) == k
  {
    SortedGroups(GroupBy(PrefixOf, ctx.selected), k, y);
    GroupByMembers(PrefixOf, ctx.selected, k, y);
  }

  lemma VariantGroupsMembers(members: seq<Instance>, k: string, y: Instance)
    ensures InGroups(VariantGroups(members), k, y) <==> y in members && VariantOf(y) == k
  {
    SortedGroups(GroupBy(VariantOf, members), k, y);
    GroupByMembers(VariantOf, members, k, y);
  }

  // Coverage.

  /** `g` is a `<p>*` pattern whose `p` is a prefix of the family `f`. */
  predicate IsFamilyGlob(g: string, f: string)
  {
    EndsWithStar(g) && StartsWith(f, StripStars(g))
  }

  /** A candidate that stands for `x`: a family glob over its family, or its exact name. */
  predicate CoversName(g: string, x: Instance)
  {
    IsFamilyGlob(g, VariantOf(x)) || g == x.apiName
  }

  lemma StarGlobIsFamilyGlob(p: string, f: string)
    requires StartsWith(f, p)
    ensures IsFamilyGlob(p + "*", f)
  {
    StripStarsAppend(p);
    StartsWithTransitive(f, p, StripStars(p));
  }

  lemma PrefixOfIsPrefix(x: Instance)
    ensures StartsWith(VariantOf(x), PrefixOf(x))
  {
  }

  lemma NamesHas(xs: seq<Instance>, y: Instance)
    requires y in xs
    ensures y.apiName in Names(xs)
  {
    var i :| 0 <= i < |xs| && xs[i] == y;
    assert Names(xs)[i] == y.apiName;
  }

  lemma {:induction false} VariantGlobsCover(ctx: Ctx, vs: Groups, y: Instance)
    requires InGroups(vs, VariantOf(y), y)
    ensures exists g :: g in VariantGlobs(ctx, vs) && CoversName(g, y)
  {
    var init, last := vs[..|vs| - 1], vs[|vs| - 1];
    assert vs == init + [last];
    VariantGlobsAppend(ctx, init, last);
    if last.0 == VariantOf(y) && y in last.1 {
      if GlobIsValid(ctx, last.0 + "*") {
        StarGlobIsFamilyGlob(last.0, VariantOf(y));
        assert (last.0 + "*") in VariantStep(ctx, last);
        assert (last.0 + "*") in VariantGlobs(ctx, vs) && CoversName(last.0 + "*", y);
      } else {
        NamesHas(last.1, y);
        assert y.apiName in VariantGlobs(ctx, vs) && CoversName(y.apiName, y);
      }
    } else {
      var i :| 0 <= i < |vs| && vs[i].0 == VariantOf(y) && y in vs[i].1;
      assert i < |init| && init[i] == vs[i];
      VariantGlobsCover(ctx, init, y);
      var g :| g in VariantGlobs(ctx, init) && CoversName(g, y);
      assert g in VariantGlobs(ctx, vs);
    }
  }

  lemma {:induction false} PrefixGlobsCover(ctx: Ctx, gs: Groups, y: Instance)
    requires InGroups(gs, PrefixOf(y), y)
    ensures exists g :: g in PrefixGlobs(ctx, gs) && CoversName(g, y)
  {
    var init, last := gs[..|gs| - 1], gs[|gs| - 1];
    assert gs == init + [last];
    PrefixGlobsAppend(ctx, init, last);
    if last.0 == PrefixOf(y) && y in last.1 {
      if GlobIsValid(ctx, last.0 + "*") {
        PrefixOfIsPrefix(y);
        StarGlobIsFamilyGlob(last.0, VariantOf(y));
        assert (last.0 + "*") in PrefixStep(ctx, last);
        assert (last.0 + "*") in PrefixGlobs(ctx, gs) && CoversName(last.0 + "*", y);
      } else {
        VariantGroupsMembers(last.1, VariantOf(y), y);
        VariantGlobsCover(ctx, VariantGroups(last.1), y);
        var g :| g in VariantGlobs(ctx, VariantGroups(last.1)) && CoversName(g, y);
        assert g in PrefixGlobs(ctx, gs);
      }
    } else {
      var i :| 0 <= i < |gs| && gs[i].0 == PrefixOf(y) && y in gs[i].1;
      assert i < |init| && init[i] == gs[i];
      PrefixGlobsCover(ctx, init, y);
      var g :| g in PrefixGlobs(ctx, init) && CoversName(g, y);
      assert g in PrefixGlobs(ctx, gs);
    }
  }

  /** Before deduplication, every selected instance has a candidate standing for it. */
  lemma CandidatesCover(ctx: Ctx, y: Instance)
    requires y in ctx.selected
    ensures exists g :: g in Candidates(ctx) && CoversName(g, y)
  {
    PrefixGroupsMembers(ctx, PrefixOf(y), y);
    PrefixGlobsCover(ctx, PrefixGroups(ctx), y);
  }

  lemma {:induction false} RemoveSubsumedMembers(all: seq<string>, xs: seq<string>, g: string)
    ensures g in RemoveSubsumedFrom(all, xs) <==> g in xs && !SubsumedIn(all, g)
  {
    if xs != [] {
      var init := xs[..|xs| - 1];
      assert xs == init + [xs[|xs| - 1]];
      RemoveSubsumedMembers(all, init, g);
    }
  }

  /** An exact name (a dot, no trailing `*`) is never subsumed. */
  lemma ExactNameNeverSubsumed(broader: string, name: string)
    requires HasChar(name, '.') && !EndsWithStar(name)
    ensures !GlobSubsumes(broader, name)
  {
  }

  /** Among the family globs of `f` in `all`, one with the shortest stem is not subsumed. */
  lemma {:induction false} FamilyGlobSurvives(all: seq<string>, f: string, g: string)
    requires g in all && IsFamilyGlob(g, f)
    ensures exists h :: h in all && IsFamilyGlob(h, f) && !SubsumedIn(all, h)
    decreases |StripStars(g)|
  {
    if SubsumedIn(all, g) {
      var t :| 0 <= t < |all| && all[t] != g && GlobSubsumes(all[t], g);
      var h := all[t];
      assert StartsWith(StripStars(g), StripStars(h)) && StripStars(g) != StripStars(h);
      assert |StripStars(h)| < |StripStars(g)|;
      StartsWithTransitive(f, StripStars(g), StripStars(h));
      FamilyGlobSurvives(all, f, h);
    }
  }

  /** A selected name that is an alphanumeric family, a dot and a size. */
  predicate PlainName(x: Instance)
  {
    HasChar(x.apiName, '.') && AllAlnum(VariantOf(x)) && !EndsWithStar(x.apiName)
  }

  lemma FamilyGlobMatches(x: Instance, g: string)
    requires PlainName(x) && IsFamilyGlob(g, VariantOf(x))
    ensures MatchesFamilyPattern(x.apiName, g)
  {
    var f, c := VariantOf(x), StripStars(g);
    assert f[..|c|] == c;
    assert !HasChar(c, '.') by {
      forall i | 0 <= i < |c| ensures c[i] != '.' { assert c[i] == f[i]; }
    }
    PrefixGlobIsFamily(x.apiName, c);
  }

  lemma ExactNameMatches(name: string)
    requires HasChar(name, '.') && !EndsWithStar(name)
    ensures MatchesFamilyPattern(name, name)
  {
  }

  /**
   * Coverage: every selected instance named `<alphanumeric family>.<size>` is matched by some
   * pattern of the output.
   */
  lemma Coverage(ctx: Ctx, x: Instance)
    requires x in ctx.selected && PlainName(x)
    ensures exists g :: g in GlobsOf(ctx) && MatchesFamilyPattern(x.apiName, g)
  {
    CandidatesCover(ctx, x);
    var g0 :| g0 in Candidates(ctx) && CoversName(g0, x);
    var unique := SortDedup(Candidates(ctx));
    assert g0 in unique;
    if IsFamilyGlob(g0, VariantOf(x)) {
      FamilyGlobSurvives(unique, VariantOf(x), g0);
      var h :| h in unique && IsFamilyGlob(h, VariantOf(x)) && !SubsumedIn(unique, h);
      RemoveSubsumedMembers(unique, unique, h);
      FamilyGlobMatches(x, h);
    } else {
      RemoveSubsumedMembers(unique, unique, g0);
      ExactNameMatches(x.apiName);
    }
  }

  // Shape of the output.

  lemma EmptySelection(ctx: Ctx)
    requires ctx.selected == []
    ensures GlobsOf(ctx) == []
  {
    assert PrefixGroups(ctx) == [];
  }

  lemma {:induction false} RemoveSubsumedSorted(all: seq<string>, xs: seq<string>)
    requires StrictlySorted(xs)
    ensures StrictlySorted(RemoveSubsumedFrom(all, xs))
  {
    if xs != [] {
      var init, last := xs[..|xs| - 1], xs[|xs| - 1];
      assert StrictlySorted(init);
      RemoveSubsumedSorted(all, init);
      var r := RemoveSubsumedFrom(all, init);
      forall y | y in r ensures StrLt(y, last) {
        RemoveSubsumedMembers(all, init, y);
        var i :| 0 <= i < |init| && init[i] == y;
        assert xs[i] == y;
      }
    }
  }

  /** The output is strictly ascending: sorted and free of duplicates. */
  lemma OutputStrictlySorted(ctx: Ctx)
    ensures StrictlySorted(GlobsOf(ctx))
  {
    var unique := SortDedup(Candidates(ctx));
    RemoveSubsumedSorted(unique, unique);
  }

  /** No output pattern subsumes another. */
  lemma OutputSubsumptionFree(ctx: Ctx, a: string, b: string)
    requires a in GlobsOf(ctx) && b in GlobsOf(ctx) && a != b
    ensures !GlobSubsumes(a, b)
  {
    var unique := SortDedup(Candidates(ctx));
    RemoveSubsumedMembers(unique, unique, a);
    RemoveSubsumedMembers(unique, unique, b);
    var t :| 0 <= t < |unique| && unique[t] == a;
  }

  /** Every output pattern is a candidate, and every candidate is kept unless another one subsumes it. */
  lemma OutputMembers(ctx: Ctx, g: string)
    ensures g in GlobsOf(ctx) <==> g in Candidates(ctx) && !SubsumedIn(SortDedup(Candidates(ctx)), g)
  {
    var unique := SortDedup(Candidates(ctx));
    RemoveSubsumedMembers(unique, unique, g);
  }

  // Validity.

  /** A candidate either passed `glob_is_valid` or is the name of a selected instance. */
  predicate FromSelection(ctx: Ctx, g: string)
  {
    GlobIsValid(ctx, g) || exists x :: x in ctx.selected && x.apiName == g
  }

  /** Every instance in the groups `vs` is in `xs`. */
  predicate Within(vs: Groups, xs: seq<Instance>)
  {
    forall i :: 0 <= i < |vs| ==> forall y :: y in vs[i].1 ==> y in xs
  }

  lemma WithinInit(vs: Groups, xs: seq<Instance>)
    requires vs != [] && Within(vs, xs)
    ensures Within(vs[..|vs| - 1], xs)
  {
    var init := vs[..|vs| - 1];
    forall i | 0 <= i < |init| ensures forall y :: y in init[i].1 ==> y in xs {
      assert init[i] == vs[i];
    }
  }

  lemma WithinVariantGroups(members: seq<Instance>, xs: seq<Instance>)
    requires forall y :: y in members ==> y in xs
    ensures Within(VariantGroups(members), xs)
  {
    var vs := VariantGroups(members);
    forall i, y | 0 <= i < |vs| && y in vs[i].1 ensures y in xs {
      VariantGroupsMembers(members, vs[i].0, y);
    }
  }

  /** One variant group's contribution is its valid glob or names of its members. */
  lemma VariantStepSound(ctx: Ctx, v: (string, seq<Instance>), g: string)
    requires forall y :: y in v.1 ==> y in ctx.selected
    requires g in VariantStep(ctx, v)
    ensures FromSelection(ctx, g)
  {
    if !GlobIsValid(ctx, v.0 + "*") {
      var i :| 0 <= i < |v.1| && Names(v.1)[i] == g;
      assert v.1[i] in ctx.selected && v.1[i].apiName == g;
    }
  }

  lemma {:induction false} VariantGlobsSound(ctx: Ctx, vs: Groups, g: string)
    requires Within(vs, ctx.selected)
    requires g in VariantGlobs(ctx, vs)
    ensures FromSelection(ctx, g)
  {
    var init, last := vs[..|vs| - 1], vs[|vs| - 1];
    assert VariantGlobs(ctx, vs) == VariantGlobs(ctx, init) + VariantStep(ctx, last);
    if g in VariantStep(ctx, last) {
      VariantStepSound(ctx, last, g);
    } else {
      WithinInit(vs, ctx.selected);
      VariantGlobsSound(ctx, init, g);
    }
  }

  /** One prefix group's contribution is its valid glob or what its variant groups contribute. */
  lemma PrefixStepSound(ctx: Ctx, p: (string, seq<Instance>), g: string)
    requires forall y :: y in p.1 ==> y in ctx.selected
    requires g in PrefixStep(ctx, p)
    ensures FromSelection(ctx, g)
  {
    if !GlobIsValid(ctx, p.0 + "*") {
      WithinVariantGroups(p.1, ctx.selected);
      VariantGlobsSound(ctx, VariantGroups(p.1), g);
    }
  }

  lemma {:induction false} PrefixGlobsSound(ctx: Ctx, gs: Groups, g: string)
    requires Within(gs, ctx.selected)
    requires g in PrefixGlobs(ctx, gs)
    ensures FromSelection(ctx, g)
  {
    var init, last := gs[..|gs| - 1], gs[|gs| - 1];
    assert PrefixGlobs(ctx, gs) == PrefixGlobs(ctx, init) + PrefixStep(ctx, last);
    if g in PrefixStep(ctx, last) {
      PrefixStepSound(ctx, last, g);
    } else {
      WithinInit(gs, ctx.selected);
      PrefixGlobsSound(ctx, init, g);
    }
  }

  /**
   * Every output pattern ending in `*` passed `glob_is_valid`, provided no selected name itself
   * ends in `*` (exact names are emitted without that check).
   */
  lemma OutputValid(ctx: Ctx, g: string)
    requires forall x :: x in ctx.selected ==> !EndsWithStar(x.apiName)
    requires g in GlobsOf(ctx) && EndsWithStar(g)
    ensures GlobIsValid(ctx, g)
  {
    OutputMembers(ctx, g);
    var gs := PrefixGroups(ctx);
    forall i, y | 0 <= i < |gs| && y in gs[i].1 ensures y in ctx.selected {
      PrefixGroupsMembers(ctx, gs[i].0, y);
    }
    PrefixGlobsSound(ctx, gs, g);
  }

  lemma {:induction false} PricesWhereMembers(xs: seq<Instance>, p: Instance -> bool, v: real)
    ensures v in PricesWhere(xs, p) <==> exists x :: x in xs && p(x) && x.price == Some(v)
  {
    if xs != [] {
      var init, last := xs[..|xs| - 1], xs[|xs| - 1];
      assert xs == init + [last];
      PricesWhereMembers(init, p, v);
      if exists x :: x in xs && p(x) && x.price == Some(v) {
        var x :| x in xs && p(x) && x.price == Some(v);
        if x != last {
          assert x in init;
        }
      }
    }
  }

  lemma PricesOfMembers(xs: seq<Instance>, glob: string, v: real)
    ensures v in PricesOf(xs, glob) <==>
              exists x :: x in xs && MatchesFamilyPattern(x.apiName, glob) && x.price == Some(v)
  {
    PricesWhereMembers(xs, FamilyMatch(glob), v);
  }

  /**
   * What `glob_is_valid` means: under a budget, every priced selected instance the glob matches
   * costs at most the budget (and a negative budget fails a glob that matches no priced instance,
   * whose maximum price reads as 0.0); under `nvme=True`, every universe instance the glob
   * matches has NVMe storage.
   */
  lemma GlobIsValidMeaning(ctx: Ctx, g: string)
    ensures GlobIsValid(ctx, g) <==>
      && (ctx.budget.None? ||
            ((forall x :: x in ctx.selected && MatchesFamilyPattern(x.apiName, g) && x.price.Some? ==>
                x.price.value <= ctx.budget.value) &&
             (0.0 <= ctx.budget.value ||
                exists x :: x in ctx.selected && MatchesFamilyPattern(x.apiName, g) && x.price.Some?)))
      && (ctx.nvme != Some(true) ||
            forall x :: x in ctx.universe && MatchesFamilyPattern(x.apiName, g) ==> x.nvme == Some(true))
  {
    BudgetMeaning(ctx, g);
    NvmeMeaning(ctx, g);
  }

  /** The budget half of `glob_is_valid`. */
  lemma BudgetMeaning(ctx: Ctx, g: string)
    ensures !(ctx.budget.Some? && MaxPriceInSelected(ctx, g) > ctx.budget.value) <==>
      (ctx.budget.None? ||
            ((forall x :: x in ctx.selected && MatchesFamilyPattern(x.apiName, g) && x.price.Some? ==>
                x.price.value <= ctx.budget.value) &&
             (0.0 <= ctx.budget.value ||
                exists x :: x in ctx.selected && MatchesFamilyPattern(x.apiName, g) && x.price.Some?)))
  {
    var prices := PricesOf(ctx.selected, g);
    forall x | x in ctx.selected && MatchesFamilyPattern(x.apiName, g) && x.price.Some?
      ensures x.price.value in prices
    {
      PricesOfMembers(ctx.selected, g, x.price.value);
    }
    if prices != [] {
      PricesOfMembers(ctx.selected, g, MaxOf(prices));
    }
  }

  /** The NVMe half of `glob_is_valid`. */
  lemma NvmeMeaning(ctx: Ctx, g: string)
    ensures !(ctx.nvme == Some(true) && MatchesNonNvme(ctx, g)) <==>
      (ctx.nvme != Some(true) ||
            forall x :: x in ctx.universe && MatchesFamilyPattern(x.apiName, g) ==> x.nvme == Some(true))
  {
    if exists x :: x in ctx.universe && MatchesFamilyPattern(x.apiName, g) && x.nvme != Some(true) {
      var x :| x in ctx.universe && MatchesFamilyPattern(x.apiName, g) && x.nvme != Some(true);
      var i :| 0 <= i < |ctx.universe| && ctx.universe[i] == x;
      assert !x.nvme.GetOr(false);
    }
  }

  // Without constraints.

  lemma {:induction false} AllValidPrefixGlobs(ctx: Ctx, gs: Groups, g: string)
    requires ctx.budget.None? && ctx.nvme != Some(true)
    ensures g in PrefixGlobs(ctx, gs) <==> exists i :: 0 <= i < |gs| && g == gs[i].0 + "*"
  {
    if gs != [] {
      var init, last := gs[..|gs| - 1], gs[|gs| - 1];
      assert gs == init + [last];
      PrefixGlobsAppend(ctx, init, last);
      AllValidPrefixGlobs(ctx, init, g);
      if exists i :: 0 <= i < |gs| && g == gs[i].0 + "*" {
        var i :| 0 <= i < |gs| && g == gs[i].0 + "*";
        if i < |init| {
          assert init[i] == gs[i];
        }
      }
    }
  }

  /**
   * With no budget and no NVMe demand every prefix glob is valid, so the candidates are exactly
   * the `<two-character prefix>*` globs of the selected instances.
   */
  lemma NoConstraintCandidates(ctx: Ctx, g: string)
    requires ctx.budget.None? && ctx.nvme != Some(true)
    ensures g in Candidates(ctx) <==> exists x :: x in ctx.selected && g == PrefixOf(x) + "*"
  {
    var gs := PrefixGroups(ctx);
    AllValidPrefixGlobs(ctx, gs, g);
    if g in Candidates(ctx) {
      var i :| 0 <= i < |gs| && g == gs[i].0 + "*";
      GroupByNonEmpty(PrefixOf, ctx.selected);
      SortedGroupsNonEmpty(GroupBy(PrefixOf, ctx.selected));
      PrefixGroupsMembers(ctx, gs[i].0, gs[i].1[0]);
    }
    if exists x :: x in ctx.selected && g == PrefixOf(x) + "*" {
      var x :| x in ctx.selected && g == PrefixOf(x) + "*";
      PrefixGroupsMembers(ctx, PrefixOf(x), x);
      var i :| 0 <= i < |gs| && gs[i].0 == PrefixOf(x) && x in gs[i].1;
    }
  }

  // The fall-back to exact names.

  lemma {:induction false} VariantGlobsHasName(ctx: Ctx, vs: Groups, x: Instance)
    requires InGroups(vs, VariantOf(x), x) && !GlobIsValid(ctx, VariantOf(x) + "*")
    ensures x.apiName in VariantGlobs(ctx, vs)
  {
    var init, last := vs[..|vs| - 1], vs[|vs| - 1];
    assert vs == init + [last];
    VariantGlobsAppend(ctx, init, last);
    if last.0 == VariantOf(x) && x in last.1 {
      NamesHas(last.1, x);
    } else {
      var i :| 0 <= i < |vs| && vs[i].0 == VariantOf(x) && x in vs[i].1;
      assert i < |init| && init[i] == vs[i];
      VariantGlobsHasName(ctx, init, x);
    }
  }

  lemma {:induction false} PrefixGlobsHasName(ctx: Ctx, gs: Groups, x: Instance)
    requires InGroups(gs, PrefixOf(x), x)
    requires !GlobIsValid(ctx, PrefixOf(x) + "*") && !GlobIsValid(ctx, VariantOf(x) + "*")
    ensures x.apiName in PrefixGlobs(ctx, gs)
  {
    var init, last := gs[..|gs| - 1], gs[|gs| - 1];
    assert gs == init + [last];
    PrefixGlobsAppend(ctx, init, last);
    if last.0 == PrefixOf(x) && x in last.1 {
      VariantGroupsMembers(last.1, VariantOf(x), x);
      VariantGlobsHasName(ctx, VariantGroups(last.1), x);
    } else {
      var i :| 0 <= i < |gs| && gs[i].0 == PrefixOf(x) && x in gs[i].1;
      assert i < |init| && init[i] == gs[i];
      PrefixGlobsHasName(ctx, init, x);
    }
  }

  /**
   * When neither the prefix glob nor the variant glob of a selected instance is valid, its exact
   * name is in the output (an exact name is never subsumed).
   */
  lemma ExactNameFallback(ctx: Ctx, x: Instance)
    requires x in ctx.selected && HasChar(x.apiName, '.') && !EndsWithStar(x.apiName)
    requires !GlobIsValid(ctx, PrefixOf(x) + "*") && !GlobIsValid(ctx, VariantOf(x) + "*")
    ensures x.apiName in GlobsOf(ctx)
  {
    PrefixGroupsMembers(ctx, PrefixOf(x), x);
    PrefixGlobsHasName(ctx, PrefixGroups(ctx), x);
    OutputMembers(ctx, x.apiName);
  }

  // Subsumption.

  /** A glob that subsumes another matches every name the narrower one does, for alphanumeric stems. */
  lemma SubsumesSound(broader: string, narrower: string, apiName: string)
    requires GlobSubsumes(broader, narrower)
    requires AllAlnum(StripStars(narrower))
    requires MatchesFamilyPattern(apiName, narrower)
    ensures MatchesFamilyPattern(apiName, broader)
  {
    var b, n := StripStars(broader), StripStars(narrower);
    assert n[..|b|] == b;
    assert !HasChar(n, '.') by {
      forall i | 0 <= i < |n| ensures n[i] != '.' { assert IsAlnum(n[i]); }
    }
    assert !HasChar(b, '.') by {
      forall i | 0 <= i < |b| ensures b[i] != '.' { assert b[i] == n[i]; }
    }
    var k :| |n| <= k < |apiName| && apiName[k] == '.' && CaseEq(apiName[..|n|], n) &&
      forall j :: |n| <= j < k ==> IsAlnum(apiName[j]);
    LowerPrefix(apiName[..|n|], |b|);
    LowerPrefix(n, |b|);
    assert apiName[..|n|][..|b|] == apiName[..|b|];
    forall j | |b| <= j < k ensures IsAlnum(apiName[j]) {
      if j < |n| {
        assert Lower(apiName[..|n|])[j] == Lower(n)[j];
        assert IsAlnum(n[j]);
      }
    }
    assert PrefixGlobMatches(apiName, b);
  }

  /** `m5d*` subsumes `m5dn*`, and neither an exact name nor the glob itself is subsumed. */
  lemma SubsumesExamples()
    ensures GlobSubsumes("m5d*", "m5dn*")
    ensures !GlobSubsumes("m5d*", "m5d*")
    ensures !GlobSubsumes("m5*", "m5d.large")
  {
    assert StripStars("m5d*") == "m5d" by { assert "m5d*"[..3] == "m5d"; }
    assert StripStars("m5dn*") == "m5dn" by { assert "m5dn*"[..4] == "m5dn"; }
    assert "m5dn"[..3] == "m5d";
    assert "m5d.large"[3] == '.';
  }

  /**
   * The alphanumeric condition is needed: `u7*` subsumes `u7i-12tb*`, and the narrower glob
   * matches `u7i-12tb.224xlarge`, but the broader one does not, since `-` is not in `[a-z0-9]`.
   */
  lemma HyphenatedFamilyExample()
    ensures GlobSubsumes("u7*", "u7i-12tb*")
    ensures MatchesFamilyPattern("u7i-12tb.224xlarge", "u7i-12tb*")
    ensures !MatchesFamilyPattern("u7i-12tb.224xlarge", "u7*")
  {
    BroadStripped();
    NarrowStripped();
    assert "u7i-12tb"[..2] == "u7";
    NarrowMatches();
    BroadMisses();
  }

  lemma BroadStripped()
    ensures StripStars("u7*") == "u7" && !HasChar("u7", '.')
  {
    assert "u7*"[..2] == "u7";
  }

  lemma NarrowStripped()
    ensures StripStars("u7i-12tb*") == "u7i-12tb" && !HasChar("u7i-12tb", '.')
  {
    assert "u7i-12tb*"[..8] == "u7i-12tb";
  }

  lemma NarrowMatches()
    ensures PrefixGlobMatches("u7i-12tb.224xlarge", "u7i-12tb")
  {
    var name := "u7i-12tb.224xlarge";
    assert name[..8] == "u7i-12tb";
    assert name[8] == '.';
  }

  /** The `-` at index 3 stops the letters-and-digits run before any dot. */
  lemma BroadMisses()
    ensures !PrefixGlobMatches("u7i-12tb.224xlarge", "u7")
  {
    var name := "u7i-12tb.224xlarge";
    assert name[3] == '-' && !IsAlnum(name[3]);
    assert name[2] != '.' && name[3] != '.';
  }
}
