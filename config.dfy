/**
 * Runner requirements and runner configuration: exact-or-range cpu/ram requirements, their
 * parsing from YAML values and from command-line text, and the `runners:` section of a
 * `runs-on.yml` file turned into named runner configurations.
 */
module Config {
  import opened Wrappers
  import opened Text
  import opened Numerals
  import Inference

  /** An EC2 instance type as loaded from the pricing table. */
  datatype Instance = Instance(
    apiName: string,
    vcpus: int,
    memoryGb: real,
    price: Option<real>,
    spot: Option<real>,
    arch: string,
    ebsMbps: Option<int>,
    nvme: Option<bool>,
    nvmeGb: Option<int>)

  /** A cpu or ram requirement: exact when `maxVal` is None, an inclusive range otherwise. */
  datatype Requirement = Requirement(minVal: Num, maxVal: Option<Num>)

  /** `Requirement.matches` */
  predicate Matches(req: Requirement, value: real)
  {
    if req.maxVal.None? then value == Value(req.minVal)
    else Value(req.minVal) <= value <= Value(req.maxVal.value)
  }

  /** An exact requirement matches its own value and nothing else. */
  lemma ExactMatchesOnlyItself(n: Num, value: real)
    ensures Matches(Requirement(n, None), value) <==> value == Value(n)
  {
  }

  /** A range includes both ends and excludes everything outside them. */
  lemma RangeIsInclusive(lo: Num, hi: Num, value: real)
    requires Value(lo) <= Value(hi)
    ensures Matches(Requirement(lo, Some(hi)), Value(lo)) && Matches(Requirement(lo, Some(hi)), Value(hi))
    ensures value < Value(lo) || Value(hi) < value ==> !Matches(Requirement(lo, Some(hi)), value)
  {
  }

  /** An inverted range (`16:8`) is accepted and matches nothing. */
  lemma InvertedRangeMatchesNothing(lo: Num, hi: Num, value: real)
    requires Value(hi) < Value(lo)
    ensures !Matches(Requirement(lo, Some(hi)), value)
  {
  }

  /** The range `n:n` matches exactly what the exact requirement `n` matches. */
  lemma DegenerateRangeIsExact(n: Num, value: real)
    ensures Matches(Requirement(n, Some(n)), value) <==> Matches(Requirement(n, None), value)
  {
  }

  /** `Requirement.__str__`: `min` or `min:max`. */
  function RequirementString(req: Requirement): string
  {
    if req.maxVal.None? then Show(req.minVal) else Show(req.minVal) + ":" + Show(req.maxVal.value)
  }

  /** A YAML value as `yaml.safe_load` gives it. */
  datatype Yaml = YNull | YNum(n: Num) | YStr(s: string) | YList(items: seq<Yaml>) | YMap(entries: seq<(string, Yaml)>)

  /**
   * `parse_requirement`: null gives no constraint, a number or a one-element list an exact
   * requirement, a two-element list a range; any other value gives no constraint.
   */
  function ParseRequirement(v: Yaml): (r: Option<Requirement>)
    ensures v.YNull? || v.YStr? || v.YMap? ==> r.None?
    ensures v.YNum? ==> r == Some(Requirement(v.n, None))
    ensures v.YList? && |v.items| != 1 && |v.items| != 2 ==> r.None?
    ensures v.YList? && |v.items| == 1 && v.items[0].YNum? ==> r == Some(Requirement(v.items[0].n, None))
    ensures v.YList? && |v.items| == 2 && v.items[0].YNum? && v.items[1].YNum? ==>
              r == Some(Requirement(v.items[0].n, Some(v.items[1].n)))
  {
    match v
    case YNum(n) => Some(Requirement(n, None))
    case YList(items) =>
      if |items| == 1 && items[0].YNum? then Some(Requirement(items[0].n, None))
      else if |items| == 2 && items[0].YNum? && items[1].YNum? then Some(Requirement(items[0].n, Some(items[1].n)))
      else None
    case _ => None
  }

  /** What the parsed YAML requirement then accepts: `8` only 8, `[8]` only 8, `[8, 16]` 8 to 16. */
  lemma ParsedRequirementMatches(v: Yaml, value: real)
    requires ParseRequirement(v).Some?
    ensures v.YNum? ==> (Matches(ParseRequirement(v).value, value) <==> value == Value(v.n))
    ensures v.YList? && |v.items| == 1 ==> (Matches(ParseRequirement(v).value, value) <==> value == Value(v.items[0].n))
    ensures v.YList? && |v.items| == 2 ==>
              (Matches(ParseRequirement(v).value, value) <==> Value(v.items[0].n) <= value <= Value(v.items[1].n))
  {
  }

  function RangeFormatError(value: string): string
  {
    "Invalid range format: '" + value + "' (use 'min:max')"
  }

  function InvalidIntegerError(value: string): string
  {
    "Invalid integer in '" + value + "'"
  }

  /** The `except ValueError` handler: an "invalid literal" message is replaced, any other kept. */
  function Reraise(value: string, msg: string): string
  {
    if Contains(msg, "invalid literal") then InvalidIntegerError(value) else msg
  }

  /**
   * `parse_cli_requirement`: `8` is exact, `8:16` a range split at the first `:` with each side
   * stripped; both sides must be non-blank integers.
   */
  function ParseCliRequirement(value: string): (r: Result<Requirement>)
    ensures r.Ok? ==> r.value.minVal.Int? && (r.value.maxVal.Some? <==> HasChar(value, ':'))
    ensures r.Ok? && r.value.maxVal.Some? ==> r.value.maxVal.value.Int?
    ensures !HasChar(value, ':') ==> (r.Ok? <==> ParseInt(value).Ok?)
    ensures !HasChar(value, ':') && r.Ok? ==> r.value.minVal == Int(ParseInt(value).value)
    ensures HasChar(value, ':') && Strip(Before(value, ':')) != [] && Strip(After(value, ':')) != [] &&
            ParseInt(Strip(Before(value, ':'))).Ok? && ParseInt(Strip(After(value, ':'))).Ok? ==>
              r == Ok(Requirement(Int(ParseInt(Strip(Before(value, ':'))).value),
                                  Some(Int(ParseInt(Strip(After(value, ':'))).value))))
  {
    if HasChar(value, ':') then
      var minStr := Strip(Before(value, ':'));
      var maxStr := Strip(After(value, ':'));
      if minStr == [] || maxStr == [] then Err(Reraise(value, RangeFormatError(value)))
      else
        match ParseInt(minStr)
        case Err(m) => Err(Reraise(value, m))
        case Ok(lo) =>
          match ParseInt(maxStr)
          case Err(m) => Err(Reraise(value, m))
          case Ok(hi) => Ok(Requirement(Int(lo), Some(Int(hi))))
    else
      match ParseInt(value)
      case Err(m) => Err(Reraise(value, m))
      case Ok(i) => Ok(Requirement(Int(i), None))
  }

  /** A side that is not an integer literal is reported as "Invalid integer in '<value>'". */
  lemma CliInvalidInteger(value: string)
    requires || (!HasChar(value, ':') && !IsIntLiteral(value))
             || (HasChar(value, ':') && Strip(Before(value, ':')) != [] && Strip(After(value, ':')) != [] &&
                 ParseInt(Strip(Before(value, ':'))).Ok? && !IsIntLiteral(Strip(After(value, ':'))))
             || (HasChar(value, ':') && Strip(Before(value, ':')) != [] && Strip(After(value, ':')) != [] &&
                 !IsIntLiteral(Strip(Before(value, ':'))))
    ensures ParseCliRequirement(value) == Err(InvalidIntegerError(value))
  {
    if HasChar(value, ':') {
      var minStr, maxStr := Strip(Before(value, ':')), Strip(After(value, ':'));
      if !IsIntLiteral(minStr) {
        IntErrorMentionsLiteral(minStr);
      } else {
        IntErrorMentionsLiteral(maxStr);
      }
    } else {
      IntErrorMentionsLiteral(value);
    }
  }

  /**
   * A side of more than 4300 digits fails with the limit message, which holds no "invalid
   * literal", so the handler passes it on unchanged.
   */
  lemma CliDigitLimit(value: string)
    ensures !HasChar(value, ':') && IsIntLiteral(value) && LiteralDigits(value) > MaxStrDigits ==>
              ParseCliRequirement(value) == Err(LimitError(LiteralDigits(value)))
    ensures HasChar(value, ':') && Strip(Before(value, ':')) != [] && Strip(After(value, ':')) != [] &&
            IsIntLiteral(Strip(Before(value, ':'))) && LiteralDigits(Strip(Before(value, ':'))) > MaxStrDigits ==>
              ParseCliRequirement(value) == Err(LimitError(LiteralDigits(Strip(Before(value, ':')))))
  {
    if HasChar(value, ':') {
      var minStr := Strip(Before(value, ':'));
      if IsIntLiteral(minStr) {
        LimitErrorFree(LiteralDigits(minStr));
      }
    } else if IsIntLiteral(value) {
      LimitErrorFree(LiteralDigits(value));
    }
  }

  /** The fixed text of the range-format message holds no "invalid literal" of its own. */
  lemma {:induction false} RangeFormatErrorMentions(value: string)
    ensures Contains(RangeFormatError(value), "invalid literal") <==> Contains(value, "invalid literal")
  {
    var w := "invalid literal";
    var head := "Invalid range format: ";
    var tail := " (use 'min:max')";
    RangeFormatErrorShape(value);
    assert !HasChar(w, '\'');
    ContainsSplit(head, '\'', value + ['\''] + tail, w);
    ContainsSplit(value, '\'', tail, w);
    HeadFree(head, w);
    TailFree(tail, w);
    if Contains(value, w) {
      ContainsIn(value, w, head + ['\''], ['\''] + tail);
    }
  }

  lemma RangeFormatErrorShape(value: string)
    ensures RangeFormatError(value) == "Invalid range format: " + ['\''] + (value + ['\''] + " (use 'min:max')")
    ensures RangeFormatError(value) == ("Invalid range format: " + ['\'']) + value + (['\''] + " (use 'min:max')")
  {
  }

  /** `Invalid range format: ` itself does not contain "invalid literal": split at its `g`. */
  lemma HeadFree(head: string, w: string)
    requires head == "Invalid range format: " && w == "invalid literal"
    ensures !Contains(head, w)
  {
    assert head == "Invalid ran" + ['g'] + "e format: ";
    ShortSidesFree("Invalid ran", 'g', "e format: ", w);
  }

  /** ` (use 'min:max')` does not contain "invalid literal": split at its first quote. */
  lemma TailFree(tail: string, w: string)
    requires tail == " (use 'min:max')" && w == "invalid literal"
    ensures !Contains(tail, w)
  {
    assert tail == " (use " + ['\''] + "min:max')";
    ShortSidesFree(" (use ", '\'', "min:max')", w);
  }

  lemma {:induction false} ContainsIn(s: string, w: string, p: string, q: string)
    requires Contains(s, w)
    ensures Contains(p + s + q, w)
  {
    if p == [] {
      ContainsExtend(s, w, q);
      assert p + s + q == s + q;
    } else {
      assert (p + s + q)[1..] == p[1..] + s + q;
      ContainsIn(s, w, p[1..], q);
    }
  }

  lemma {:induction false} ContainsExtend(s: string, w: string, q: string)
    requires Contains(s, w)
    ensures Contains(s + q, w)
  {
    if StartsWith(s, w) {
      assert (s + q)[..|w|] == s[..|w|];
    } else {
      assert (s + q)[1..] == s[1..] + q;
      ContainsExtend(s[1..], w, q);
    }
  }

  /**
   * A blank side is reported as a range-format error; only when the value text itself holds
   * "invalid literal" does the handler turn that message into "Invalid integer in ...".
   */
  lemma CliBlankSide(value: string)
    requires HasChar(value, ':')
    requires Strip(Before(value, ':')) == [] || Strip(After(value, ':')) == []
    ensures !Contains(value, "invalid literal") ==> ParseCliRequirement(value) == Err(RangeFormatError(value))
    ensures Contains(value, "invalid literal") ==> ParseCliRequirement(value) == Err(InvalidIntegerError(value))
  {
    RangeFormatErrorMentions(value);
  }

  lemma {:induction false} IntStrHasNoColon(i: int)
    ensures !HasChar(IntStr(i), ':')
  {
    var s := IntStr(i);
    forall k | 0 <= k < |s| ensures s[k] != ':' {
      assert IsDigit(s[k]) || s[k] == '-';
    }
  }

  /**
   * `parse_cli_requirement(str(req)) == req` for integer requirements whose bounds `str()` can
   * write, that is, of at most 4300 digits.
   */
  lemma CliRoundTrip(req: Requirement)
    requires req.minVal.Int? && (req.maxVal.Some? ==> req.maxVal.value.Int?)
    requires WithinStrLimit(req.minVal.i) && (req.maxVal.Some? ==> WithinStrLimit(req.maxVal.value.i))
    ensures ParseCliRequirement(RequirementString(req)) == Ok(req)
  {
    var a := req.minVal.i;
    IntStrHasNoColon(a);
    ParseIntStr(a);
    StripPlain(IntStr(a));
    if req.maxVal.Some? {
      var b := req.maxVal.value.i;
      ParseIntStr(b);
      StripPlain(IntStr(b));
      assert RequirementString(req) == IntStr(a) + [':'] + IntStr(b);
      BeforeAfterConcat(IntStr(a), ':', IntStr(b));
    }
  }

  /** One side of a spaced range, `" <i> "`: it holds no `:`, and stripped it parses back to `i`. */
  lemma PaddedSide(i: int)
    requires WithinStrLimit(i)
    ensures !HasChar(" " + IntStr(i) + " ", ':')
    ensures Strip(" " + IntStr(i) + " ") == IntStr(i) && ParseInt(IntStr(i)) == Ok(i)
  {
    var a := " " + IntStr(i) + " ";
    IntStrHasNoColon(i);
    forall k | 0 <= k < |a| ensures a[k] != ':' {
      if 0 < k < |a| - 1 { assert a[k] == IntStr(i)[k - 1]; }
    }
    StripPadded(IntStr(i));
    ParseIntStr(i);
  }

  /** Spaces around either side of the `:` are stripped: `" 8 : 16 "` is the range 8 to 16. */
  lemma CliSpacedRange(lo: int, hi: int)
    requires WithinStrLimit(lo) && WithinStrLimit(hi)
    ensures ParseCliRequirement(" " + IntStr(lo) + " : " + IntStr(hi) + " ") == Ok(Requirement(Int(lo), Some(Int(hi))))
  {
    var a := " " + IntStr(lo) + " ";
    var b := " " + IntStr(hi) + " ";
    assert " " + IntStr(lo) + " : " + IntStr(hi) + " " == a + [':'] + b;
    PaddedSide(lo);
    PaddedSide(hi);
    BeforeAfterConcat(a, ':', b);
  }

  lemma IntStrSmall()
    ensures IntStr(8) == "8" && IntStr(16) == "16"
    ensures WithinStrLimit(8) && WithinStrLimit(16)
  {
    assert NatStr(1) == "1";
  }

  /** The example of the loader's tests: `" 8 : 16 "`. */
  lemma CliSpacedExample()
    ensures ParseCliRequirement(" 8 : 16 ") == Ok(Requirement(Int(8), Some(Int(16))))
  {
    IntStrSmall();
    assert " " + IntStr(8) + " : " + IntStr(16) + " " == " 8 : 16 ";
    CliSpacedRange(8, 16);
  }

  /** `_infer_arch`, the copy of `infer_arch` the loader uses. */
  function LoaderInferArch(apiName: string): string
  {
    var family := if HasChar(apiName, '.') then Lower(Split(apiName, {'.'})[0]) else Lower(apiName);
    if |family| < 2 then "x86_64"
    else
      var suffix := family[2..];
      if HasChar(suffix, 'g') || StartsWith(family, "a1") || StartsWith(family, "t4g") then "arm64"
      else if HasChar(suffix, 'a') then "amd64"
      else "x86_64"
  }

  /** The loader's copy agrees with `infer_arch` on every name. */
  lemma LoaderInferArchAgrees(apiName: string)
    ensures LoaderInferArch(apiName) == Inference.InferArch(apiName)
  {
    if HasChar(apiName, '.') {
      SplitHead(apiName, '.');
      Inference.FamilyPrefixIsBefore(apiName);
    }
  }

  /** The `spot` setting of a runner: a flag, or a strategy name such as "price-capacity-optimized". */
  datatype Spot = SpotFlag(on: bool) | SpotStrategy(strategy: string)

  /** One entry of the `runners:` mapping; an absent `cpu`/`ram` key reads as null, an absent `spot` as None. */
  datatype RawRunner = RawRunner(family: seq<string>, cpu: Yaml, ram: Yaml, spot: Option<Spot>)

  /** A parsed runner configuration. */
  datatype Runner = Runner(families: seq<string>, cpu: Option<Requirement>, ram: Option<Requirement>, spot: Spot)

  predicate IsClean(f: string)
  {
    f != [] && Strip(f) == f
  }

  /** `[f.strip() for f in families_raw if f.strip()]` */
  function CleanFamilies(raw: seq<string>): (r: seq<string>)
    ensures |r| <= |raw|
  {
    if raw == [] then []
    else
      var rest := CleanFamilies(raw[..|raw| - 1]);
      var f := Strip(raw[|raw| - 1]);
      if f != [] then rest + [f] else rest
  }

  /** Every kept pattern is non-blank and has no surrounding whitespace. */
  lemma {:induction false} CleanFamiliesClean(raw: seq<string>)
    ensures forall i :: 0 <= i < |CleanFamilies(raw)| ==> IsClean(CleanFamilies(raw)[i])
  {
    if raw != [] {
      CleanFamiliesClean(raw[..|raw| - 1]);
      StripPlain(Strip(raw[|raw| - 1]));
    }
  }

  /** Exactly the non-blank patterns are kept, stripped. */
  lemma {:induction false} CleanFamiliesMembers(raw: seq<string>, x: string)
    ensures x in CleanFamilies(raw) <==> x != [] && exists i :: 0 <= i < |raw| && Strip(raw[i]) == x
  {
    if raw != [] {
      var init, f := raw[..|raw| - 1], Strip(raw[|raw| - 1]);
      CleanFamiliesMembers(init, x);
      assert CleanFamilies(raw) == CleanFamilies(init) + (if f != [] then [f] else []);
      ImageSomewhere(Strip, raw, x);
    }
  }

  /** An image of an entry of `raw` is an image of an entry of its initial part or of its last. */
  lemma ImageSomewhere(f: string -> string, raw: seq<string>, x: string)
    requires raw != []
    ensures var init := raw[..|raw| - 1];
      (exists i :: 0 <= i < |raw| && f(raw[i]) == x) <==>
      (exists i :: 0 <= i < |init| && f(init[i]) == x) || f(raw[|raw| - 1]) == x
  {
    var init, n := raw[..|raw| - 1], |raw| - 1;
    if f(raw[n]) == x {
      assert 0 <= n < |raw| && f(raw[n]) == x;
    }
    if exists i :: 0 <= i < |init| && f(init[i]) == x {
      var i :| 0 <= i < |init| && f(init[i]) == x;
      assert raw[i] == init[i];
    }
    if exists i :: 0 <= i < |raw| && f(raw[i]) == x {
      var i :| 0 <= i < |raw| && f(raw[i]) == x;
      if i < |init| {
        assert init[i] == raw[i];
      }
    }
  }

  /** Cleaning an already clean list changes nothing. */
  lemma {:induction false} CleanFamiliesIdempotent(raw: seq<string>)
    ensures CleanFamilies(CleanFamilies(raw)) == CleanFamilies(raw)
  {
    CleanFamiliesClean(raw);
    CleanKeepsClean(CleanFamilies(raw));
  }

  lemma {:induction false} CleanKeepsClean(xs: seq<string>)
    requires forall i :: 0 <= i < |xs| ==> IsClean(xs[i])
    ensures CleanFamilies(xs) == xs
  {
    if xs != [] {
      var init, x := xs[..|xs| - 1], xs[|xs| - 1];
      assert xs == init + [x];
      assert forall i :: 0 <= i < |init| ==> IsClean(init[i]) by {
        forall i | 0 <= i < |init| ensures IsClean(init[i]) { assert init[i] == xs[i]; }
      }
      CleanKeepsClean(init);
      CleanAppendClean(init, x);
    }
  }

  lemma CleanAppendClean(xs: seq<string>, x: string)
    requires IsClean(x)
    ensures CleanFamilies(xs + [x]) == CleanFamilies(xs) + [x]
  {
    assert (xs + [x])[..|xs|] == xs;
  }

  /** The body of the loop in `parse_runner_configs_from_data` for one runner. */
  function RunnerOf(raw: RawRunner): Option<Runner>
  {
    var families := CleanFamilies(raw.family);
    var cpu := ParseRequirement(raw.cpu);
    var ram := ParseRequirement(raw.ram);
    if families != [] || cpu.Some? || ram.Some? then Some(Runner(families, cpu, ram, raw.spot.GetOr(SpotFlag(true))))
    else None
  }

  /** The configurations `parse_runner_configs_from_data` builds, in the order of the input. */
  function ParsedRunners(runners: seq<(string, RawRunner)>): seq<(string, Runner)>
  {
    if runners == [] then []
    else
      var (name, raw) := runners[|runners| - 1];
      ParsedRunners(runners[..|runners| - 1]) + (if RunnerOf(raw).Some? then [(name, RunnerOf(raw).value)] else [])
  }

  /**
   * `parse_runner_configs_from_data` over the entries of `data["runners"]` (a mapping, so the
   * names are distinct).
   */
  method ParseRunnerConfigsFromData(runners: seq<(string, RawRunner)>) returns (result: seq<(string, Runner)>)
    ensures result == ParsedRunners(runners)
  {
    result := [];
    for i := 0 to |runners|
      invariant result == ParsedRunners(runners[..i])
    {
      assert runners[..i + 1][..i] == runners[..i];
      var (name, raw) := runners[i];
      var families := CleanFamilies(raw.family);
      var cpu := ParseRequirement(raw.cpu);
      var ram := ParseRequirement(raw.ram);
      if families != [] || cpu.Some? || ram.Some? {
        result := result + [(name, Runner(families, cpu, ram, raw.spot.GetOr(SpotFlag(true))))];
      }
    }
    assert runners[..|runners|] == runners;
  }

  /**
   * A runner is kept exactly when it has a family pattern or a cpu/ram constraint; it keeps
   * its name, its cleaned patterns, its parsed requirements and its `spot` value (default true).
   */
  lemma {:induction false} ParsedRunnersMembers(runners: seq<(string, RawRunner)>, name: string, cfg: Runner)
    ensures (name, cfg) in ParsedRunners(runners) <==>
              exists i :: 0 <= i < |runners| && runners[i].0 == name && RunnerOf(runners[i].1) == Some(cfg)
  {
    if runners != [] {
      var init, last := runners[..|runners| - 1], runners[|runners| - 1];
      assert runners == init + [last];
      ParsedRunnersAppend(init, last);
      ParsedRunnersMembers(init, name, cfg);
      assert forall i :: 0 <= i < |init| ==> init[i] == runners[i];
    }
  }

  lemma ParsedRunnersAppend(init: seq<(string, RawRunner)>, last: (string, RawRunner))
    ensures ParsedRunners(init + [last]) ==
              ParsedRunners(init) + (if RunnerOf(last.1).Some? then [(last.0, RunnerOf(last.1).value)] else [])
  {
    assert (init + [last])[..|init|] == init;
  }

  /** What a kept runner looks like. */
  lemma RunnerOfKept(raw: RawRunner)
    ensures RunnerOf(raw).Some? <==>
              CleanFamilies(raw.family) != [] || ParseRequirement(raw.cpu).Some? || ParseRequirement(raw.ram).Some?
    ensures RunnerOf(raw).Some? ==>
              var c := RunnerOf(raw).value;
              && (forall i :: 0 <= i < |c.families| ==> IsClean(c.families[i]))
              && c.cpu == ParseRequirement(raw.cpu) && c.ram == ParseRequirement(raw.ram)
              && (raw.spot.None? ==> c.spot == SpotFlag(true))
              && (raw.spot.Some? ==> c.spot == raw.spot.value)
  {
    CleanFamiliesClean(raw.family);
  }
}
