# runson: a verified model of the runner-selection core

`runson` is the command-line helper of the anchore/workflows repository for runs-on.com
self-hosted GitHub Actions runners. Given the AWS EC2 pricing table and a `runs-on.yml` file,
it answers three kinds of question:

- which instance types a runner configuration can launch;
- how a selection of instance types compresses into a short list of family globs (`c8*`, `m7g*`);
- what a finished workflow run would have cost.

This project models the pure core of those answers in Dafny and proves properties of the model.
The core has these parts:

- **Inference** (`Inference`): the family part of an instance name, its CPU architecture and
  its compute category.
- **Requirements and runner configurations** (`Config`): exact-or-range cpu/ram requirements,
  read from YAML values and from command-line text, and the `runners:` section of
  `runs-on.yml` turned into named runner configurations.
- **Matching** (`Matching`): family patterns (`r7`, `r7a*`, `r7a.large`), instance filtering,
  the runners an instance satisfies, a runner's price range and the price lookup.
- **Glob synthesis** (`Synthesis`): grouping the selection by two-character prefix and by
  family. A glob is refined when a price budget or an NVMe demand rejects it. The result has
  duplicates and subsumed globs removed.
- **Inline runner labels** (`Estimate`):
  - parsing `runs-on=.../cpu=4+8/family=m7+c7/spot=false` labels;
  - choosing the runner from a job's label list;
  - merging inline overrides into a named configuration;
  - the short display form of an inline configuration.
- **Small parsers and formatters** (`Util`, `Family`): vCPU counts and EBS bandwidth read from
  catalogue text, durations, value ranges, the `family` command's column sort and the display
  of a requirement.

Helper modules:

- `Wrappers`: `Option`, and `Result` for raised exceptions.
- `Text`: the Python string operations the core uses.
- `Numerals`: `int()`, `str()` of integers, CPython's default limit of 4300 digits on those conversions, and Python numbers.
- `Order`: string order, and `sorted(set(...))`.
- `KeySort`: Python's stable `sorted(key=...)`.

Imperative code is modelled by methods. Each loop carries an invariant that ties the
partial result to a specification function of the input prefix. The method's postcondition
equates its result with that function, and the lemmas state what the function means. These
functions and methods follow that pattern:

- `filter_instances`, `find_matching_runners`, `get_runner_price_range`,
  `get_instance_price`;
- the loops of `synthesize_globs`;
- `parse_runner_configs_from_data`;
- `parse_inline_runner_spec`, `parse_runner_from_labels`, `merge_runner_config`,
  `format_inline_spec`.

Pure code is modelled by functions and lemmas.

Python values are modelled as follows:

- Dicts are association lists in insertion order.
- Numbers are `Num`: an int, a float carrying the text `str()` gives for it, or a bool.
- Case-insensitive comparison lower-cases ASCII letters.

## Model

| member | source | states |
|---|---|---|
| Inference.FamilyPrefix | src/runson/core/inference.py:6-13 | the family part holds no `.`, is a prefix of the name, ends just before the first `.`, and is the whole name when there is no `.` |
| Inference.FamilyPrefixOf | src/runson/core/inference.py:11-12 | the family part of `<family>.<size>` is `<family>` |
| Inference.FamilyPrefixLower | src/runson/core/inference.py:25 | lower-casing before or after taking the family part gives the same text |
| Inference.InferArch | src/runson/core/inference.py:16-44 | the architecture is always one of `x86_64`, `amd64`, `arm64` |
| Inference.InferArchRules | src/runson/core/inference.py:25-44 | a family shorter than 2 gives `x86_64`; otherwise `arm64` iff `g` occurs after position 2 or the family starts with `a1`/`t4g`; failing that, `amd64` iff `a` occurs after position 2 |
| Inference.InferArchCaseInsensitive | src/runson/core/inference.py:25 | the architecture does not depend on the case of the name |
| Inference.InferArchGravitonExample | src/runson/core/inference.py:33-36 | `m7g.large` is `arm64` |
| Inference.InferArchAmdExample | src/runson/core/inference.py:38-41 | `m7a.large` is `amd64` |
| Inference.InstanceCategory | src/runson/core/inference.py:47-83 | raises (IndexError) exactly when the family part is empty; otherwise the result is one of the table's categories, `ml-inference` or `other` |
| Inference.CategoryOverrides | src/runson/core/inference.py:77-81 | `inf*` is `ml-inference` although the table maps `i` to storage; `a1*` is `general` although `a` is not in the table |
| Inference.CategoryByFirstLetter | src/runson/core/inference.py:59-83 | without an override, the first letter's table entry is the category, and an unmapped letter gives `other` |
| Inference.InstanceCategoryInferenceExample | src/runson/core/inference.py:78-79 | `inf1.xlarge` is `ml-inference` |
| Config.ExactMatchesOnlyItself | src/runson/cli/config.py:83-86 | an exact requirement matches its value and nothing else |
| Config.RangeIsInclusive | src/runson/cli/config.py:87 | a range matches both ends and nothing outside them |
| Config.InvertedRangeMatchesNothing | src/runson/cli/config.py:87 | a range whose maximum is below its minimum matches nothing |
| Config.DegenerateRangeIsExact | src/runson/cli/config.py:83-87 | the range `n:n` matches exactly what the exact requirement `n` matches |
| Config.ParseRequirement | src/runson/cli/config.py:95-106 | null, text and mappings give no constraint; a number or a one-element list gives an exact requirement; a two-element list gives a range; lists of other lengths give no constraint |
| Config.ParsedRequirementMatches | src/runson/cli/config.py:95-106 | what each YAML form then accepts: `8` and `[8]` only 8, `[8, 16]` the values from 8 to 16 |
| Config.ParseCliRequirement | src/runson/cli/config.py:109-122 | a successful parse gives integer bounds, and a range exactly when the text has a `:`; without a `:` it succeeds exactly when `int()` does, with that value; with a `:` and two non-blank stripped sides that `int()` accepts, the range from the first side's value to the second's |
| Config.CliSpacedRange | src/runson/cli/config.py:112-117 | spaces around the sides of the `:` are stripped: `" <lo> : <hi> "` gives the range `lo` to `hi`, for bounds of at most 4300 digits |
| Config.CliSpacedExample | src/runson/cli/config.py:112-117 | `" 8 : 16 "` gives the range 8 to 16 |
| Config.CliInvalidInteger | src/runson/cli/config.py:117-121 | a side that is not an integer literal, reached before any side fails otherwise, gives "Invalid integer in '<value>'" |
| Config.CliDigitLimit | src/runson/cli/config.py:117-122 | a value, or a first side, of more than 4300 digits fails with the digit-limit message, passed on unchanged because it holds no "invalid literal" |
| Config.CliBlankSide | src/runson/cli/config.py:115-122 | a blank side gives the range-format error, which the handler rewrites only when the value itself contains "invalid literal" |
| Config.RangeFormatErrorMentions | src/runson/cli/config.py:116-120 | the range-format message contains "invalid literal" exactly when the value does |
| Config.CliRoundTrip | src/runson/cli/config.py:109-118 | parsing `str(req)` (config.py lines 89-92) of an integer requirement whose bounds have at most 4300 digits gives the requirement back |
| Config.LoaderInferArchAgrees | src/runson/cli/config.py:195-218 | the loader's own copy of the architecture rules agrees with `infer_arch` on every name |
| Config.CleanFamilies | src/runson/cli/config.py:232 | the cleaned list is no longer than the raw one |
| Config.CleanFamiliesClean | src/runson/cli/config.py:232 | every kept pattern is non-empty and already stripped |
| Config.CleanFamiliesMembers | src/runson/cli/config.py:232 | a pattern is kept iff it is the non-empty stripped form of some raw entry |
| Config.CleanFamiliesIdempotent | src/runson/cli/config.py:232 | cleaning twice is cleaning once |
| Config.ParseRunnerConfigsFromData | src/runson/cli/config.py:221-247 | the loop builds the specification's runner list, in input order |
| Config.ParsedRunnersMembers | src/runson/cli/config.py:229-245 | a (name, config) pair is in the result iff some input runner of that name yields that config |
| Config.RunnerOfKept | src/runson/cli/config.py:230-245 | a runner is kept iff it has a family or a cpu/ram constraint; a kept one has clean patterns, parsed requirements and `spot` defaulting to true |
| Matching.AlnumThenDotSpec | src/runson/core/matching.py:32-33 | the character scan after the literal accepts exactly a run of letters and digits followed by a dot |
| Matching.PrefixGlob | src/runson/core/matching.py:32-33 | the regular-expression test means: the name starts with the stem in any case, continues with letters and digits, then a dot |
| Matching.MatchesFamilyPattern | src/runson/core/matching.py:12-33 | an empty name never matches; trailing `*`s are dropped; a pattern with a dot is a case-insensitive exact name; any other is a family prefix |
| Matching.TrailingStarIgnored | src/runson/core/matching.py:24 | `r7a*` and `r7a` match the same names |
| Matching.PrefixGlobIsFamily | src/runson/core/matching.py:30-33 | a prefix pattern matches exactly the dotted names whose family starts with the stem (any case) and continues alphanumerically |
| Matching.MatchesAnyPattern | src/runson/core/matching.py:36-38 | true iff some pattern of the list matches |
| Matching.FilterInstances | src/runson/core/matching.py:41-87 | the loop returns the specification's filtered list |
| Matching.FilteredMembers | src/runson/core/matching.py:55-87 | an instance is kept iff it is in the input and passes every active filter (strict budget, inclusive EBS minimum, missing NVMe flag read as false) |
| Matching.FilteredNothing | src/runson/core/matching.py:41-87 | with every filter off the input comes back unchanged |
| Matching.TighterPasses | src/runson/core/matching.py:58-83 | an instance passing tighter filters passes looser ones |
| Matching.FilterMonotone | src/runson/core/matching.py:41-87 | filtering a loosely filtered list with tighter filters equals filtering the input with the tighter ones |
| Matching.RunnerMatchesIsFilter | src/runson/core/matching.py:90-117 | a runner accepts an instance iff `filter_instances` with the runner's patterns and requirements keeps it |
| Matching.NoFamiliesNoMatch | src/runson/core/matching.py:104-105 | a runner without family patterns matches nothing |
| Matching.FindMatchingRunners | src/runson/core/matching.py:90-117 | the loop returns the specification's runner names in configuration order |
| Matching.MatchingRunnerNamesMembers | src/runson/core/matching.py:102-115 | a name is reported iff a runner of that name accepts the instance |
| Matching.GetRunnerPriceRange | src/runson/core/matching.py:120-159 | the loops and the sort return the specification's price range |
| Matching.PricedMatchesMembers | src/runson/core/matching.py:131-145 | the sorted candidates are exactly the accepted instances that have a price |
| Matching.NoRangeWhen | src/runson/core/matching.py:127-148 | no range iff the runner has no families or no accepted instance has a price |
| Matching.PriceRangeBounds | src/runson/core/matching.py:150-159 | every accepted priced instance lies between the minimum and the maximum |
| Matching.PriceRangeEnds | src/runson/core/matching.py:150-159 | both ends are accepted instances with those prices and names |
| Matching.CheapestIsFirst | src/runson/core/matching.py:150-151 | a tie at the minimum goes to the earliest accepted instance (stable sort) |
| Matching.DearestIsLast | src/runson/core/matching.py:150-152 | a tie at the maximum goes to the latest accepted instance |
| Matching.GetInstancePrice | src/runson/core/matching.py:162-167 | the loop returns the specification's lookup |
| Matching.InstancePriceFirst | src/runson/core/matching.py:164-167 | the price of the first instance with the name; None when no instance has it |
| Synthesis.GroupInstances | src/runson/core/synthesis.py:28-32 | the `setdefault`-append loop builds the specification's grouping (the variant loop at lines 70-73 is the same loop) |
| Synthesis.GroupByMembers | src/runson/core/synthesis.py:28-32 | an instance is in the group of key `k` iff it is in the input and its key is `k` |
| Synthesis.GroupByNonEmpty | src/runson/core/synthesis.py:32 | every group holds at least one instance |
| Synthesis.SortedGroups | src/runson/core/synthesis.py:61 | sorting the groups keeps their contents (the variant groups at line 75 too) |
| Synthesis.PrefixGroupsMembers | src/runson/core/synthesis.py:28-32 | the prefix groups hold exactly the selected instances, under their two-character prefix |
| Synthesis.VariantGroupsMembers | src/runson/core/synthesis.py:70-75 | the variant groups hold exactly a prefix group's instances, under their family |
| Synthesis.MaxOf | src/runson/core/synthesis.py:38 | `max` returns an element that no element exceeds |
| Synthesis.ExactNames | src/runson/core/synthesis.py:83-84 | the loop appends the names of the group, in order |
| Synthesis.EmitVariants | src/runson/core/synthesis.py:70-84 | the inner loops produce the specification's variant contributions |
| Synthesis.IsSubsumed | src/runson/core/synthesis.py:92-96 | the flag loop reports whether another element subsumes the glob |
| Synthesis.RemoveSubsumed | src/runson/core/synthesis.py:89-98 | the loop keeps exactly the unsubsumed elements, in order |
| Synthesis.EmitPrefixGroups | src/runson/core/synthesis.py:59-84 | the outer loop produces the specification's candidate list |
| Synthesis.GlobSubsumesStrict | src/runson/core/synthesis.py:103-122 | subsumption is irreflexive, never holds both ways round, and is transitive |
| Synthesis.GlobSubsumesCovers | src/runson/core/synthesis.py:103-122 | when the narrower stem has no dot and adds only letters and digits, every name the narrower glob matches the broader one matches too |
| Synthesis.SynthesizeGlobs | src/runson/core/synthesis.py:8-100 | the whole procedure returns the specification's glob list |
| Synthesis.CandidatesCover | src/runson/core/synthesis.py:59-84 | before deduplication, every selected instance has a family glob over its family or its exact name |
| Synthesis.ExactNameNeverSubsumed | src/runson/core/synthesis.py:112-114 | an exact name is never subsumed |
| Synthesis.FamilyGlobSurvives | src/runson/core/synthesis.py:88-98 | among the family globs of one family, one with the shortest stem survives subsumption removal |
| Synthesis.Coverage | src/runson/core/synthesis.py:61-98 | every selected instance named `<alphanumeric family>.<size>` is matched by some output pattern |
| Synthesis.EmptySelection | src/runson/core/synthesis.py:28-100 | an empty selection gives an empty list |
| Synthesis.OutputStrictlySorted | src/runson/core/synthesis.py:88-100 | the output is strictly ascending: sorted and without duplicates |
| Synthesis.OutputSubsumptionFree | src/runson/core/synthesis.py:88-98 | no output pattern subsumes another |
| Synthesis.OutputMembers | src/runson/core/synthesis.py:86-100 | a glob is in the output iff it is a candidate that no other candidate subsumes |
| Synthesis.OutputValid | src/runson/core/synthesis.py:49-80 | every output glob ending in `*` passed `glob_is_valid` |
| Synthesis.PricesOfMembers | src/runson/core/synthesis.py:36-37 | the prices considered are exactly those of the priced selected instances the glob matches |
| Synthesis.GlobIsValidMeaning | src/runson/core/synthesis.py:34-57 | valid iff, under a budget, no matched priced selected instance costs more than the budget, with a matched priced instance required when the budget is negative; and under `nvme=True`, every matched universe instance has NVMe |
| Synthesis.AllValidPrefixGlobs | src/runson/core/synthesis.py:61-67 | without constraints every prefix group contributes exactly its prefix glob |
| Synthesis.NoConstraintCandidates | src/runson/core/synthesis.py:49-67 | without budget or NVMe demand the candidates are exactly the `<prefix>*` globs of the selected instances |
| Synthesis.ExactNameFallback | src/runson/core/synthesis.py:79-84 | when both the prefix glob and the variant glob of a selected instance fail, its exact name is in the output |
| Synthesis.SubsumesSound | src/runson/core/synthesis.py:103-122 | a subsuming glob matches every name the subsumed one does, for alphanumeric stems |
| Synthesis.SubsumesExamples | src/runson/core/synthesis.py:103-122 | `m5d*` subsumes `m5dn*`; no glob subsumes itself; an exact name is not subsumed |
| Synthesis.HyphenatedFamilyExample | src/runson/core/synthesis.py:117-122 | `u7*` subsumes `u7i-12tb*` yet does not match `u7i-12tb.224xlarge`, which the narrower glob matches |
| Estimate.Lookup | src/runson/cli/estimate.py:234-241 | `d.get(k)` is None iff no entry has key `k`, and otherwise the value of an entry with key `k` |
| Estimate.Assign | src/runson/cli/estimate.py:149-183 | `d[k] = v` sets `k` to `v`, leaves every other key alone, appends a new key and keeps the positions of existing ones |
| Estimate.LookupEmpty | src/runson/cli/estimate.py:185 | a dict is empty iff no key is present |
| Estimate.ParseBounds | src/runson/cli/estimate.py:145-159 | integer bounds; a range iff the value has a `+`; with a `+`, the range of the values of the two sides when `int()` accepts both, else the `int()` error of the first side that fails; without one, the exact value or the `int()` error |
| Estimate.BoundsRoundTrip | src/runson/cli/estimate.py:145-159 | `str(lo)` and `str(lo)+"+"+str(hi)` parse back to the same integers, for bounds of at most 4300 digits |
| Estimate.Starred | src/runson/cli/estimate.py:168-170 | a non-empty family becomes an exact name or a starred pattern |
| Estimate.SpotValue | src/runson/cli/estimate.py:175-183 | `true`/`false` in any case are flags with that value; any other value is kept as a strategy name |
| Estimate.Outcomes | src/runson/cli/estimate.py:138-183 | one outcome per part, each the part's own result |
| Estimate.InlineSpec | src/runson/cli/estimate.py:130-131 | a label not starting with `runs-on=` gives None |
| Estimate.FamilyPatterns | src/runson/cli/estimate.py:163-171 | the pattern loop builds the specification's family list |
| Estimate.ParseInlineRunnerSpec | src/runson/cli/estimate.py:123-185 | the loop returns the specification's inline dict, or the first `int()` error |
| Estimate.FoldLastWins | src/runson/cli/estimate.py:138-183 | a key holds the value of the last part that sets it |
| Estimate.FoldUnset | src/runson/cli/estimate.py:138-183 | a key no part sets is absent |
| Estimate.FoldError | src/runson/cli/estimate.py:138-183 | parsing fails iff some part fails, with the error of the first failing part |
| Estimate.FoldEmpty | src/runson/cli/estimate.py:138-185 | the dict stays empty iff every part contributes nothing |
| Estimate.InlineSpecNone | src/runson/cli/estimate.py:134-185 | a `runs-on=` label gives None iff none of its parts is a recognised setting |
| Estimate.FamilyEntriesMembers | src/runson/cli/estimate.py:164-171 | every pattern is the starred, stripped form of a non-blank piece, and every such piece gives one |
| Estimate.FamilyListArePatterns | src/runson/cli/estimate.py:161-173 | a `family=` value yields only stripped, non-empty, exact-or-starred patterns without `+` |
| Estimate.FamilyEntriesFixed | src/runson/cli/estimate.py:164-171 | a list of such patterns passes through unchanged |
| Estimate.FamilyListRoundTrip | src/runson/cli/estimate.py:161-173 | patterns joined with `+` read back as the same list |
| Estimate.InlineSpecShaped | src/runson/cli/estimate.py:136-185 | a parsed dict holds only integer `cpu`/`ram` requirements, a non-empty pattern list under `families`, and `spot`, each at most once |
| Estimate.RunnerNameFrom | src/runson/cli/estimate.py:204-206 | `re.search(r"runner=([^/,]+)")` finds the leftmost `runner=` followed by a name character and captures up to the next `/` or `,` |
| Estimate.RunnerName | src/runson/cli/estimate.py:204-206 | a found runner name is non-empty and holds no `/` or `,` |
| Estimate.FirstWhere | src/runson/cli/estimate.py:199-222 | the index of the first label satisfying the test, None when no label does |
| Estimate.RunnerFromLabels | src/runson/cli/estimate.py:188-224 | `is_runs_on` iff some label starts with `runs-on=`, and then the result is the runner name and inline spec (or its error) of the first such label; otherwise no inline dict, and a hosted-runner name iff some label is a hosted-runner label, the first such label |
| Estimate.ParseRunnerFromLabels | src/runson/cli/estimate.py:188-224 | the two loops with early returns compute the specification's triple |
| Estimate.RunsOnBeatsHosted | src/runson/cli/estimate.py:199-218 | a hosted label placed before a `runs-on=` label changes nothing |
| Estimate.Merged | src/runson/cli/estimate.py:227-242 | each of families, cpu, ram, spot present in the overrides takes the override's value; every other key keeps the base's |
| Estimate.MergedDistinct | src/runson/cli/estimate.py:233-241 | merging keeps the keys distinct |
| Estimate.MergeRunnerConfig | src/runson/cli/estimate.py:227-242 | the copy-and-assign steps compute the specification's merge |
| Estimate.MergeNothing | src/runson/cli/estimate.py:233-242 | overrides with none of the four keys leave the base unchanged |
| Estimate.MergeIdempotent | src/runson/cli/estimate.py:227-242 | merging the same overrides twice is merging once |
| Estimate.MergeInline | src/runson/cli/estimate.py:227-242 | each setting of an inline label parsed at estimate.py line 209 wins over the named runner's, and only those change |
| Estimate.InlineParts | src/runson/cli/estimate.py:247-266 | at most three display parts |
| Estimate.FormatInlineSpec | src/runson/cli/estimate.py:245-267 | the method builds the specification's display text |
| Estimate.InlineTextDefault | src/runson/cli/estimate.py:267 | the display is `inline` iff the dict has no cpu, ram or families |
| Estimate.InlineTextSplits | src/runson/cli/estimate.py:267 | the display splits at `/` back into its parts |
| Estimate.FamiliesTextRoundTrip | src/runson/cli/estimate.py:260-266 | up to three patterns read back as themselves; longer lists as their first two and `...` |
| Util.DigitRunEnd | src/runson/cli/util.py:53 | the end of the maximal digit run from a position |
| Util.CountFrom | src/runson/cli/util.py:53-54 | None iff no position starts digits, optional whitespace and the unit; otherwise the value of the digit run at the leftmost such position (the `Mbps` search at lines 77-78 alike) |
| Util.CountRoundTrip | src/runson/cli/util.py:49-54 | a count written as digits, a space and a unit word reads back as the count |
| Util.VcpusExample | src/runson/cli/util.py:49-54 | `<n> vCPUs` and `<n> vCPU` give `n` |
| Util.BandwidthExample | src/runson/cli/util.py:73-78 | `<n> Mbps` gives `n` |
| Util.OtherUnitIgnored | src/runson/cli/util.py:77-78 | `10 Gbps` gives None |
| Util.FormatDuration | src/runson/cli/util.py:81-91 | under a minute `<s>s`; under an hour `<m>m <ss>s` with `m*60+ss` the seconds; beyond, `<h>h <mm>m` with the leftover seconds (under 60) dropped; the two-digit fields are zero-padded |
| Util.MinIndex | src/runson/cli/util.py:98 | `min` takes the first of the smallest values |
| Util.MaxIndex | src/runson/cli/util.py:98 | `max` takes the first of the largest values |
| Util.FormatRange | src/runson/cli/util.py:94-101 | `N/A` for no values; otherwise the text ends with the suffix |
| Util.RangeOfEqual | src/runson/cli/util.py:99-100 | equal values print once, as the first value and the suffix |
| Util.RangeOfDistinct | src/runson/cli/util.py:98-101 | unequal values print as `lo-hi` with `lo` the smallest and `hi` the largest value |
| Util.RangeOrderFree | src/runson/cli/util.py:94-101 | reordering values that print alike when equal does not change the text |
| Util.RangeMixedExample | src/runson/cli/util.py:98-100 | `[1, 1.0]` prints `1` and `[1.0, 1]` prints `1.0` |
| Family.ParseColumn | src/runson/cli/family.py:14-28 | a known column's name selects it; any other text gives "Unknown sort column: X. Valid options: price, spot, vcpus, memory, api_name, arch, ebs" |
| Family.ColumnRoundTrip | src/runson/cli/family.py:14-27 | each column's name selects that column, and only the seven names are accepted |
| Family.SortInstances | src/runson/cli/family.py:14-29 | an unknown column is an error; otherwise the result is non-decreasing under the column's key, a permutation of the input, and stable: the instances of each key keep their input order |
| Family.UnknownLast | src/runson/cli/family.py:15-29 | sorting by price, spot or ebs puts every instance without the value after every instance with it |
| Family.StableOrder | src/runson/cli/family.py:29 | two instances with the same key keep their relative order |
| Family.FormatReq | src/runson/cli/family.py:202-206 | `name=` then the minimum for an exact requirement, or `min:max` for a range |
| Family.FormatReqRoundTrip | src/runson/cli/family.py:202-206 | splitting the display at its first `=` gives the name and a value that parses back to the integer requirement, for bounds of at most 4300 digits |
| Family.FormatReqExample | src/runson/cli/family.py:202-206 | `cpu=4:8` for 4 to 8, `cpu=4` for exactly 4 |
| KeySort.SortBy | src/runson/cli/family.py:29 | `sorted(key=...)` is non-decreasing, a permutation, and keeps the input order within each key |
| KeySort.SortByFirst | src/runson/core/matching.py:150-151 | the first sorted element is the first input element with the smallest key |
| KeySort.SortByLast | src/runson/core/matching.py:150-152 | the last sorted element is the last input element with the largest key |
| Order.SortDedup | src/runson/core/synthesis.py:88 | `sorted(set(xs))` is strictly ascending and holds exactly the elements of `xs` |
| Order.StrictlySortedUnique | src/runson/core/synthesis.py:88 | two strictly ascending lists with the same elements are equal |
| Text.StripStars | src/runson/core/matching.py:24 | `rstrip("*")` removes every trailing `*` and nothing else |
| Text.Split | src/runson/cli/estimate.py:134 | `re.split("[/,]")` gives at least one piece, and no piece holds a separator |
| Text.SplitJoin | src/runson/cli/estimate.py:164 | splitting a join at its separator gives the pieces back |
| Numerals.ParseInt | src/runson/cli/config.py:117-118 | `int()` succeeds exactly on a literal of at most 4300 digits; any other text fails with the "invalid literal for int() with base 10" message, a longer literal with the digit-limit message giving its digit count |
| Numerals.ParseIntStr | src/runson/cli/config.py:117-118 | `int(str(i)) == i` wherever `str(i)` has at most 4300 digits |
| Numerals.ParseIntTooLong | src/runson/cli/config.py:117-118 | a run of more than 4300 digits fails with the digit-limit message for that many digits |
| Numerals.LimitErrorFree | src/runson/cli/config.py:120-122 | the digit-limit message never contains "invalid literal" |
| Numerals.IntError | src/runson/cli/config.py:117-118 | the `int()` message starts with "invalid literal for int() with base 10: " and shows at most 200 characters of the argument's repr |
| Numerals.IntErrorPlain | src/runson/cli/config.py:117-118 | an argument with no quote and nothing to escape is shown between single quotes |
| Numerals.IntErrorApostrophe | src/runson/cli/config.py:117-118 | an argument with a `'` and no `"` is shown between double quotes |
| Text.Repr | src/runson/cli/config.py:117-118 | `repr` of a str opens and closes with the same quote, a double quote exactly when the text holds a `'` and no `"` |
| Text.ReprBodyVerbatim | src/runson/cli/config.py:117-118 | characters that need no escape appear in the repr as they are |
| Text.ReprPlain | src/runson/cli/config.py:117-118 | a text with no quote and nothing to escape has the repr `'<text>'` |
| Text.ReprApostrophe | src/runson/cli/config.py:117-118 | a text with a `'`, no `"` and nothing else to escape has the repr `"<text>"` |
| Text.Cut | src/runson/cli/config.py:117-118 | `%.200R` keeps a prefix of at most 200 characters, the whole repr when it is short enough |
| Text.StripPadded | src/runson/cli/config.py:114 | `strip()` of a text padded with one space on each side gives the text |

## Left out

- Terminal output, click commands and options, file and network I/O, and `subprocess` calls to `git` and `gh` are not modelled. This covers the `estimate` and `family` commands, `print_table`, `print_yaml`, `print_globs`, `fetch_*`, `load_instances`, `load_runner_configs` and `find_repo_root`.
- Costing a workflow run is not modelled: the GitHub pricing tables, `parse_larger_runner_label`, `get_github_hosted_cost`, `parse_workflow_url` and `parse_timestamp`. These read clocks and remote data, and work in floating point.
- `util.C` is not modelled. It is presentation state that depends on the terminal.
- `parse_memory_gb` and `parse_hourly_cost` are not modelled. They produce IEEE floats through `float()`.
- `parse_has_local_nvme` and `parse_local_storage_gb` are not part of this model. Instances carry an NVMe flag and an NVMe size as given.
- Floating point is not modelled. Prices and memory sizes are exact reals. A float value carries the text `str()` prints for it, and the `repr` of a float is not modelled.
- Case folding covers ASCII letters only. `str.lower()` and `re.IGNORECASE` applied to non-ASCII letters are not modelled.
- `\d` covers ASCII digits only. `int()` applied to other Unicode digits is not modelled.
- Regular expressions are not interpreted. Each is replaced by a function stating what it matches, and the `Matching.PrefixGlob` and `Util.CountFrom` contracts say what that is.
- Python's dynamic typing is not modelled. Dict values, YAML values and sort keys have fixed shapes.
  - A `family:` entry given as a string rather than a list is not modelled.
  - Config.ParseRequirement: a one- or two-element list with an element that is not a number gives None. The source builds a `Requirement` from such an element, so `Config.RunnerOf` drops a runner the source keeps.
  - A comparison that would raise a TypeError is not modelled.
- `data.get("runners", {})` is not modelled. The runner mapping is passed as its entries, in order, with distinct names.
- Synthesis.Coverage: stated only for names whose family is alphanumeric. For a hyphenated family the source's own prefix glob can miss the name. `Synthesis.HyphenatedFamilyExample` exhibits this with `u7*` and `u7i-12tb.224xlarge`.
- Synthesis.OutputValid: requires that no selected name ends in `*`. An exact name is emitted without the validity check and could otherwise look like a glob.
- Numerals.IntStr: `str()` of an int of more than 4300 digits raises ValueError, and the model writes its digits. So `Numerals.ParseIntStr`, `Config.CliRoundTrip`, `Config.CliSpacedRange`, `Estimate.BoundsRoundTrip` and `Family.FormatReqRoundTrip` require bounds of at most 4300 digits.
- Numerals.ParseInt: the digit limit is CPython's default. `sys.set_int_max_str_digits` is not modelled, and the limit message has CPython 3.12's wording.
- Util.ParseVcpus and Util.ParseEbsBandwidth: `int()` of a captured count of more than 4300 digits raises ValueError, and the model returns the count.
- Numerals.IntError: `repr` is modelled for its quote choice and for the escapes of a backslash, the chosen quote, newline, carriage return and tab. Other non-printable characters, which `repr` writes as `\x`, `\u` or `\U` escapes, are shown as they are.
- Synthesis.GlobSubsumesCovers: stated only for narrower stems that add letters and digits. For a hyphenated stem the broader glob can miss a name the narrower one matches (`Synthesis.HyphenatedFamilyExample`).
- Util.FormatDuration: takes whole seconds. Fractional seconds and the `:.0f` rounding are left out.
- Util.RangeOrderFree: requires that values that compare equal print alike. Python's `min` keeps the first of equal values, so `[1, 1.0]` and `[1.0, 1]` print differently (`Util.RangeMixedExample`).
- Util.FormatRange: its own contract states only the empty case and the suffix. The rest is stated by `Util.RangeOfEqual`, `Util.RangeOfDistinct` and `Util.RangeOrderFree`.
- Estimate.Assign: the inline dict and the merge assume distinct keys. `Estimate.AssignDistinct` and `Estimate.MergedDistinct` show that both keep them distinct.
- `format_inline_spec` writes ranges as `min-max`, while inline labels read ranges as `min+max`. So the display of a cpu or ram range does not parse back, and no round trip is stated for it.
