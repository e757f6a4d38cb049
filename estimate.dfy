/**
 * The pure core of the `estimate` command: reading runner settings out of a job's `runs-on=`
 * label, choosing the runner from a job's label list, applying inline overrides to a named
 * runner configuration and the short display form of an inline configuration.
 */
module Estimate {
  import opened Wrappers
  import opened Text
  import opened Numerals
  import opened Config

  // Runner configuration dicts.

  /** A value of a runner-configuration dict. A `cpu: None` entry is `VNone`. */
  datatype Value = VFamilies(families: seq<string>) | VReq(req: Requirement) | VNone | VSpot(spot: Spot)

  /** A Python dict, as its entries in insertion order. */
  type Dict = seq<(string, Value)>

  /** `d.get(k)` */
  function Lookup(d: Dict, k: string): (r: Option<Value>)
    ensures r.None? <==> forall i :: 0 <= i < |d| ==> d[i].0 != k
    ensures r.Some? ==> exists i :: 0 <= i < |d| && d[i] == (k, r.value)
  {
    if d == [] then None
    else if d[0].0 == k then Some(d[0].1)
    else
      var r := Lookup(d[1..], k);
      assert forall i :: 1 <= i < |d| ==> d[i] == d[1..][i - 1];
      r
  }

  predicate DistinctKeys(d: Dict)
  {
    forall i, j :: 0 <= i < j < |d| ==> d[i].0 != d[j].0
  }

  /**
   * `d[k] = v`: an existing key keeps its place and takes the new value, a new key is added at
   * the end; no other key changes.
   */
  function Assign(d: Dict, k: string, v: Value): (r: Dict)
    ensures Lookup(r, k) == Some(v)
    ensures forall k2 :: k2 != k ==> Lookup(r, k2) == Lookup(d, k2)
    ensures Lookup(d, k).None? ==> r == d + [(k, v)]
    ensures Lookup(d, k).Some? ==> |r| == |d| && forall i :: 0 <= i < |d| ==> r[i].0 == d[i].0
    ensures forall i :: 0 <= i < |r| ==> r[i] == (k, v) || r[i] in d
  {
    if d == [] then [(k, v)]
    else if d[0].0 == k then
      AssignHere(d, k, v);
      [(k, v)] + d[1..]
    else
      AssignFurther(d, k, v, Assign(d[1..], k, v));
      [d[0]] + Assign(d[1..], k, v)
  }

  /** An assignment to the first key replaces that entry. */
  lemma AssignHere(d: Dict, k: string, v: Value)
    requires d != [] && d[0].0 == k
    ensures var r := [(k, v)] + d[1..];
      && Lookup(r, k) == Some(v)
      && (forall k2 :: k2 != k ==> Lookup(r, k2) == Lookup(d, k2))
      && |r| == |d| && (forall i :: 0 <= i < |d| ==> r[i].0 == d[i].0)
      && (forall i :: 0 <= i < |r| ==> r[i] == (k, v) || r[i] in d)
  {
    var r := [(k, v)] + d[1..];
    forall k2 | k2 != k ensures Lookup(r, k2) == Lookup(d, k2) {
      LookupCons((k, v), d[1..], k2);
    }
    assert forall i :: 1 <= i < |r| ==> r[i] == d[i];
  }

  /** An assignment past a different first key keeps that entry in front of the assigned rest. */
  lemma AssignFurther(d: Dict, k: string, v: Value, rest: Dict)
    requires d != [] && d[0].0 != k
    requires Lookup(rest, k) == Some(v)
    requires forall k2 :: k2 != k ==> Lookup(rest, k2) == Lookup(d[1..], k2)
    requires Lookup(d[1..], k).None? ==> rest == d[1..] + [(k, v)]
    requires Lookup(d[1..], k).Some? ==> |rest| == |d[1..]| && forall i :: 0 <= i < |d[1..]| ==> rest[i].0 == d[1..][i].0
    requires forall i :: 0 <= i < |rest| ==> rest[i] == (k, v) || rest[i] in d[1..]
    ensures var r := [d[0]] + rest;
      && Lookup(r, k) == Some(v)
      && (forall k2 :: k2 != k ==> Lookup(r, k2) == Lookup(d, k2))
      && (Lookup(d, k).None? ==> r == d + [(k, v)])
      && (Lookup(d, k).Some? ==> |r| == |d| && forall i :: 0 <= i < |d| ==> r[i].0 == d[i].0)
      && (forall i :: 0 <= i < |r| ==> r[i] == (k, v) || r[i] in d)
  {
    FurtherLookups(d, k, v, rest);
    FurtherShape(d, k, v, rest);
    FurtherEntries(d, k, v, rest);
  }

  lemma FurtherLookups(d: Dict, k: string, v: Value, rest: Dict)
    requires d != [] && d[0].0 != k
    requires Lookup(rest, k) == Some(v)
    requires forall k2 :: k2 != k ==> Lookup(rest, k2) == Lookup(d[1..], k2)
    ensures Lookup([d[0]] + rest, k) == Some(v)
    ensures forall k2 :: k2 != k ==> Lookup([d[0]] + rest, k2) == Lookup(d, k2)
  {
    LookupCons(d[0], rest, k);
    forall k2 | k2 != k ensures Lookup([d[0]] + rest, k2) == Lookup(d, k2) {
      LookupCons(d[0], rest, k2);
    }
  }

  lemma FurtherShape(d: Dict, k: string, v: Value, rest: Dict)
    requires d != [] && d[0].0 != k
    requires Lookup(d[1..], k).None? ==> rest == d[1..] + [(k, v)]
    requires Lookup(d[1..], k).Some? ==> |rest| == |d[1..]| && forall i :: 0 <= i < |d[1..]| ==> rest[i].0 == d[1..][i].0
    ensures var r := [d[0]] + rest;
      && (Lookup(d, k).None? ==> r == d + [(k, v)])
      && (Lookup(d, k).Some? ==> |r| == |d| && forall i :: 0 <= i < |d| ==> r[i].0 == d[i].0)
  {
    var r := [d[0]] + rest;
    assert Lookup(d, k) == Lookup(d[1..], k);
    if Lookup(d, k).None? {
      assert d == [d[0]] + d[1..];
    } else {
      forall i | 0 <= i < |d| ensures r[i].0 == d[i].0 {
        if i > 0 { assert r[i] == rest[i - 1] && d[i] == d[1..][i - 1]; }
      }
    }
  }

  lemma FurtherEntries(d: Dict, k: string, v: Value, rest: Dict)
    requires d != []
    requires forall i :: 0 <= i < |rest| ==> rest[i] == (k, v) || rest[i] in d[1..]
    ensures var r := [d[0]] + rest; forall i :: 0 <= i < |r| ==> r[i] == (k, v) || r[i] in d
  {
    var r := [d[0]] + rest;
    forall i | 0 <= i < |r| ensures r[i] == (k, v) || r[i] in d {
      if i > 0 {
        assert r[i] == rest[i - 1];
        if rest[i - 1] in d[1..] {
          var j :| 0 <= j < |d[1..]| && d[1..][j] == rest[i - 1];
          assert d[j + 1] == rest[i - 1];
        }
      }
    }
  }

  lemma LookupCons(e: (string, Value), t: Dict, k: string)
    ensures Lookup([e] + t, k) == if e.0 == k then Some(e.1) else Lookup(t, k)
  {
    assert ([e] + t)[1..] == t;
  }

  lemma {:induction false} AssignDistinct(d: Dict, k: string, v: Value)
    requires DistinctKeys(d)
    ensures DistinctKeys(Assign(d, k, v))
  {
    var r := Assign(d, k, v);
    if Lookup(d, k).None? {
      forall i, j | 0 <= i < j < |r| ensures r[i].0 != r[j].0 {
        if j == |d| {
          assert r[i] == d[i];
        } else {
          assert r[i] == d[i] && r[j] == d[j];
        }
      }
    }
  }

  /** An empty dict is falsy; any other is truthy. */
  lemma LookupEmpty(d: Dict)
    ensures d == [] <==> forall k :: Lookup(d, k).None?
  {
    if d != [] {
      assert Lookup(d, d[0].0).Some?;
    }
  }

  // parse_inline_runner_spec

  const LabelSeps: set<char> := {'/', ','}

  /** The key of a `key=value` part: the text before the first `=`, stripped and lower-cased. */
  function PartKey(part: string): string
  {
    Lower(Strip(Before(part, '=')))
  }

  /** `cpu=8` is exact, `cpu=8+32` a range split at the first `+`; `int()` raises on anything else. */
  function ParseBounds(value: string): (r: Result<Requirement>)
    ensures r.Ok? ==> r.value.minVal.Int? && (r.value.maxVal.Some? <==> HasChar(value, '+'))
    ensures r.Ok? && r.value.maxVal.Some? ==> r.value.maxVal.value.Int?
    ensures !HasChar(value, '+') ==>
              r == (if ParseInt(value).Ok? then Ok(Requirement(Int(ParseInt(value).value), None))
                    else Err(ParseInt(value).msg))
    ensures HasChar(value, '+') && ParseInt(Before(value, '+')).Err? ==> r == Err(ParseInt(Before(value, '+')).msg)
    ensures HasChar(value, '+') && ParseInt(Before(value, '+')).Ok? && ParseInt(After(value, '+')).Ok? ==>
              r == Ok(Requirement(Int(ParseInt(Before(value, '+')).value), Some(Int(ParseInt(After(value, '+')).value))))
    ensures HasChar(value, '+') && ParseInt(Before(value, '+')).Ok? && ParseInt(After(value, '+')).Err? ==>
              r == Err(ParseInt(After(value, '+')).msg)
  {
    if HasChar(value, '+') then
      match ParseInt(Before(value, '+'))
      case Err(m) => Err(m)
      case Ok(lo) =>
        match ParseInt(After(value, '+'))
        case Err(m) => Err(m)
        case Ok(hi) => Ok(Requirement(Int(lo), Some(Int(hi))))
    else
      match ParseInt(value)
      case Err(m) => Err(m)
      case Ok(i) => Ok(Requirement(Int(i), None))
  }

  lemma {:induction false} IntStrHasNoPlus(i: int)
    ensures !HasChar(IntStr(i), '+')
  {
    var s := IntStr(i);
    forall k | 0 <= k < |s| ensures s[k] != '+' {
      assert IsDigit(s[k]) || s[k] == '-';
    }
  }

  /** Bounds written with `str()`, each of at most 4300 digits, read back as the same integers. */
  lemma BoundsRoundTrip(lo: int, hi: int)
    requires WithinStrLimit(lo) && WithinStrLimit(hi)
    ensures ParseBounds(IntStr(lo)) == Ok(Requirement(Int(lo), None))
    ensures ParseBounds(IntStr(lo) + "+" + IntStr(hi)) == Ok(Requirement(Int(lo), Some(Int(hi))))
  {
    IntStrHasNoPlus(lo);
    ParseIntStr(lo);
    ParseIntStr(hi);
    BeforeAfterConcat(IntStr(lo), '+', IntStr(hi));
  }

  /** `fam` with `*` appended, unless it names an exact instance or already ends in `*`. */
  function Starred(fam: string): (r: string)
    ensures fam != [] ==> HasChar(r, '.') || EndsWithStar(r)
  {
    if !HasChar(fam, '.') && !EndsWithStar(fam) then fam + "*" else fam
  }

  /** The family patterns of the `+`-separated pieces: stripped, blanks dropped, starred. */
  function FamilyEntries(pieces: seq<string>): seq<string>
  {
    if pieces == [] then []
    else
      var fam := Strip(pieces[|pieces| - 1]);
      FamilyEntries(pieces[..|pieces| - 1]) + (if fam == [] then [] else [Starred(fam)])
  }

  /** The `families` list of a `family=` value. */
  function FamilyList(value: string): seq<string>
  {
    FamilyEntries(Split(value, {'+'}))
  }

  /** `spot=true`/`spot=false` in any case are flags; any other value names a strategy. */
  function SpotValue(value: string): (r: Spot)
    ensures r.SpotFlag? <==> Lower(value) == "true" || Lower(value) == "false"
    ensures r.SpotFlag? ==> (r.on <==> Lower(value) == "true")
    ensures r.SpotStrategy? ==> r.strategy == value
  {
    if Lower(value) == "false" then SpotFlag(false)
    else if Lower(value) == "true" then SpotFlag(true)
    else SpotStrategy(value)
  }

  /**
   * What one part of the label contributes: the entry it sets, nothing (no `=`, an unknown key,
   * a `family=` with no patterns), or the ValueError of `int()`.
   */
  function PartResult(part: string): Result<Option<(string, Value)>>
  {
    if !HasChar(part, '=') then Ok(None) else PartEntry(PartKey(part), After(part, '='))
  }

  /** What a `key=value` part contributes, by its lowered, stripped key. */
  function PartEntry(key: string, value: string): Result<Option<(string, Value)>>
  {
    if key == "cpu" || key == "ram" then
      match ParseBounds(value)
      case Err(m) => Err(m)
      case Ok(req) => Ok(Some((key, VReq(req))))
    else if key == "family" then
      var families := FamilyList(value);
      if families == [] then Ok(None) else Ok(Some(("families", VFamilies(families))))
    else if key == "spot" then Ok(Some(("spot", VSpot(SpotValue(value)))))
    else Ok(None)
  }

  /** What a part contributes. */
  type Outcome = Result<Option<(string, Value)>>

  /** One step of the loop: an error stops it, an entry is assigned. */
  function Apply(acc: Result<Dict>, o: Outcome): Result<Dict>
  {
    match acc
    case Err(m) => Err(m)
    case Ok(d) =>
      match o
      case Err(m) => Err(m)
      case Ok(None) => Ok(d)
      case Ok(Some(e)) => Ok(Assign(d, e.0, e.1))
  }

  /** The dict the loop builds from the outcomes of its parts, or the first error. */
  function FoldOutcomes(os: seq<Outcome>): Result<Dict>
  {
    if os == [] then Ok([]) else Apply(FoldOutcomes(os[..|os| - 1]), os[|os| - 1])
  }

  function Outcomes(parts: seq<string>): (os: seq<Outcome>)
    ensures |os| == |parts| && forall i :: 0 <= i < |parts| ==> os[i] == PartResult(parts[i])
  {
    seq(|parts|, i requires 0 <= i < |parts| => PartResult(parts[i]))
  }

  /** The dict the loop over `parts` builds, or the first error. */
  function InlineFold(parts: seq<string>): Result<Dict>
  {
    FoldOutcomes(Outcomes(parts))
  }

  /** The result of `parse_inline_runner_spec`: None for other labels and for an empty dict. */
  function InlineSpec(jobLabel: string): (r: Result<Option<Dict>>)
    ensures !StartsWith(jobLabel, "runs-on=") ==> r == Ok(None)
  {
    if !StartsWith(jobLabel, "runs-on=") then Ok(None)
    else
      match InlineFold(Split(jobLabel, LabelSeps))
      case Err(m) => Err(m)
      case Ok(d) => Ok(if d == [] then None else Some(d))
  }

  /** One more piece of the loop's prefix adds its stripped, starred pattern unless it is blank. */
  lemma FamilyEntriesPrefix(pieces: seq<string>, i: nat)
    requires i < |pieces|
    ensures var fam := Strip(pieces[i]);
      FamilyEntries(pieces[..i + 1]) == FamilyEntries(pieces[..i]) + (if fam == [] then [] else [Starred(fam)])
  {
    assert pieces[..i + 1][..i] == pieces[..i];
  }

  /** The pattern loop of a `family=` value. */
  method FamilyPatterns(value: string) returns (families: seq<string>)
    ensures families == FamilyList(value)
  {
    var pieces := Split(value, {'+'});
    families := [];
    for i := 0 to |pieces|
      invariant families == FamilyEntries(pieces[..i])
    {
      FamilyEntriesPrefix(pieces, i);
      var fam := Strip(pieces[i]);
      if fam == [] {
        continue;
      }
      if !HasChar(fam, '.') && !EndsWithStar(fam) {
        fam := fam + "*";
      }
      families := families + [fam];
    }
    assert pieces[..|pieces|] == pieces;
  }

  lemma {:induction false} FoldErrorStays(os: seq<Outcome>, i: nat)
    requires i <= |os| && FoldOutcomes(os[..i]).Err?
    ensures FoldOutcomes(os) == FoldOutcomes(os[..i])
  {
    if i < |os| {
      var init := os[..|os| - 1];
      assert init[..i] == os[..i];
      FoldErrorStays(init, i);
    } else {
      assert os[..i] == os;
    }
  }

  /** `parse_inline_runner_spec` */
  method ParseInlineRunnerSpec(jobLabel: string) returns (r: Result<Option<Dict>>)
    ensures r == InlineSpec(jobLabel)
  {
    if !StartsWith(jobLabel, "runs-on=") {
      return Ok(None);
    }
    var parts := Split(jobLabel, LabelSeps);
    ghost var os := Outcomes(parts);
    var result: Dict := [];
    for i := 0 to |parts|
      invariant FoldOutcomes(os[..i]) == Ok(result)
    {
      assert os[..i + 1][..i] == os[..i];
      var part := parts[i];
      if !HasChar(part, '=') {
        continue;
      }
      var key := PartKey(part);
      var value := After(part, '=');
      if key == "cpu" || key == "ram" {
        var req := ParseBounds(value);
        if req.Err? {
          FoldErrorStays(os, i + 1);
          return Err(req.msg);
        }
        result := Assign(result, key, VReq(req.value));
      } else if key == "family" {
        var families := FamilyPatterns(value);
        if families != [] {
          result := Assign(result, "families", VFamilies(families));
        }
      } else if key == "spot" {
        result := Assign(result, "spot", VSpot(SpotValue(value)));
      }
    }
    assert os[..|parts|] == os;
    r := Ok(if result == [] then None else Some(result));
  }

  // What the inline parse yields.

  /** The outcome sets key `k`. */
  predicate Sets(o: Outcome, k: string)
  {
    o.Ok? && o.value.Some? && o.value.value.0 == k
  }

  /** One step of the loop sets the key its outcome names and leaves every other key alone. */
  lemma ApplyLookup(acc: Result<Dict>, o: Outcome, k: string)
    requires Apply(acc, o).Ok?
    ensures acc.Ok?
    ensures Lookup(Apply(acc, o).value, k) == if Sets(o, k) then Some(o.value.value.1) else Lookup(acc.value, k)
  {
  }

  /** One step of the loop fails exactly when the dict so far or the outcome is an error, keeping the earlier one. */
  lemma ApplyError(acc: Result<Dict>, o: Outcome)
    ensures Apply(acc, o).Err? <==> acc.Err? || o.Err?
    ensures Apply(acc, o).Err? ==> Apply(acc, o).msg == if acc.Err? then acc.msg else o.msg
  {
  }

  /** Later parts overwrite earlier ones: a key holds the value of the last part that sets it. */
  lemma {:induction false} FoldLastWins(os: seq<Outcome>, i: nat, k: string)
    requires FoldOutcomes(os).Ok? && i < |os| && Sets(os[i], k)
    requires forall j :: i < j < |os| ==> !Sets(os[j], k)
    ensures Lookup(FoldOutcomes(os).value, k) == Some(os[i].value.value.1)
  {
    var init, o := os[..|os| - 1], os[|os| - 1];
    var v := os[i].value.value.1;
    assert FoldOutcomes(os) == Apply(FoldOutcomes(init), o);
    ApplyLookup(FoldOutcomes(init), o, k);
    if i < |init| {
      assert init[i] == os[i];
      assert forall j :: i < j < |init| ==> init[j] == os[j];
      FoldLastWins(init, i, k);
    }
    LastWinsStep(FoldOutcomes(init), o, k, v);
  }

  /** One step of the loop leaves the key at `v`: the outcome sets it to `v`, or leaves the earlier `v`. */
  lemma LastWinsStep(acc: Result<Dict>, o: Outcome, k: string, v: Value)
    requires Apply(acc, o).Ok?
    requires (Sets(o, k) && o.value.value.1 == v) || (!Sets(o, k) && acc.Ok? && Lookup(acc.value, k) == Some(v))
    ensures Lookup(Apply(acc, o).value, k) == Some(v)
  {
    ApplyLookup(acc, o, k);
  }

  /** A key no part sets is absent. */
  lemma {:induction false} FoldUnset(os: seq<Outcome>, k: string)
    requires FoldOutcomes(os).Ok?
    requires forall j :: 0 <= j < |os| ==> !Sets(os[j], k)
    ensures Lookup(FoldOutcomes(os).value, k).None?
  {
    if os != [] {
      var init := os[..|os| - 1];
      ApplyLookup(FoldOutcomes(init), os[|os| - 1], k);
      assert forall j :: 0 <= j < |init| ==> init[j] == os[j];
      FoldUnset(init, k);
    }
  }

  /** The loop fails exactly when some part fails, with the error of the first one that does. */
  lemma {:induction false} FoldError(os: seq<Outcome>)
    ensures FoldOutcomes(os).Err? <==> exists i :: 0 <= i < |os| && os[i].Err?
    ensures FoldOutcomes(os).Err? ==>
              exists i :: 0 <= i < |os| && os[i] == Err(FoldOutcomes(os).msg) &&
                forall j :: 0 <= j < i ==> os[j].Ok?
  {
    if os != [] {
      var init := os[..|os| - 1];
      FoldError(init);
      ApplyError(FoldOutcomes(init), os[|os| - 1]);
      assert forall j :: 0 <= j < |init| ==> init[j] == os[j];
      if FoldOutcomes(init).Err? {
        var i :| 0 <= i < |init| && init[i] == Err(FoldOutcomes(init).msg) &&
          forall j :: 0 <= j < i ==> init[j].Ok?;
        assert os[i] == Err(FoldOutcomes(os).msg);
      } else if os[|os| - 1].Err? {
        assert forall j :: 0 <= j < |init| ==> os[j].Ok?;
      } else {
        forall i | 0 <= i < |os| ensures os[i].Ok? {
          if i < |init| { assert !init[i].Err?; }
        }
      }
    }
  }

  /** The dict stays empty exactly when no part sets anything and none fails. */
  lemma {:induction false} FoldEmpty(os: seq<Outcome>)
    ensures FoldOutcomes(os) == Ok([]) <==> forall i :: 0 <= i < |os| ==> os[i] == Ok(None)
  {
    if os != [] {
      var init := os[..|os| - 1];
      FoldEmpty(init);
      assert forall j :: 0 <= j < |init| ==> init[j] == os[j];
    }
  }

  /**
   * `parse_inline_runner_spec` gives None for a `runs-on=` label exactly when no part of it is a
   * recognised setting and none fails.
   */
  lemma InlineSpecNone(jobLabel: string)
    requires StartsWith(jobLabel, "runs-on=")
    ensures var os := Outcomes(Split(jobLabel, LabelSeps));
            InlineSpec(jobLabel) == Ok(None) <==> forall i :: 0 <= i < |os| ==> os[i] == Ok(None)
  {
    var os := Outcomes(Split(jobLabel, LabelSeps));
    FoldEmpty(os);
    assert InlineFold(Split(jobLabel, LabelSeps)) == FoldOutcomes(os);
    if FoldOutcomes(os).Ok? {
      LookupEmpty(FoldOutcomes(os).value);
    }
  }

  /** A family pattern of an inline label: stripped, non-empty, exact or starred, and free of `+`. */
  predicate IsPattern(f: string)
  {
    f != [] && Strip(f) == f && (HasChar(f, '.') || EndsWithStar(f)) && !HasChar(f, '+')
  }

  lemma {:induction false} StripNoChar(s: string, c: char)
    requires !HasChar(s, c)
    ensures !HasChar(Strip(s), c)
  {
    var l := LStrip(s);
    forall i | 0 <= i < |l| ensures l[i] != c {
      assert l[i] == s[|s| - |l| + i];
    }
    var r := RStrip(l);
    forall i | 0 <= i < |r| ensures r[i] != c {
      assert r[i] == l[..|r|][i];
    }
  }

  lemma StarredPattern(s: string)
    requires !HasChar(s, '+')
    ensures var fam := Strip(s); fam != [] ==> IsPattern(Starred(fam))
  {
    var fam := Strip(s);
    StripNoChar(s, '+');
    if fam != [] {
      if !HasChar(fam, '.') && !EndsWithStar(fam) {
        StripPlain(fam + "*");
        assert !HasChar(fam + "*", '+') by {
          forall i | 0 <= i < |fam + "*"| ensures (fam + "*")[i] != '+' {
            if i < |fam| { assert (fam + "*")[i] == fam[i]; }
          }
        }
      } else {
        StripPlain(fam);
      }
    }
  }

  /** Every family pattern is a stripped piece of the value, starred unless exact or starred already. */
  lemma {:induction false} FamilyEntriesMembers(pieces: seq<string>, g: string)
    ensures g in FamilyEntries(pieces) <==> exists p :: p in pieces && Strip(p) != [] && g == Starred(Strip(p))
  {
    if pieces != [] {
      var init := pieces[..|pieces| - 1];
      FamilyEntriesMembers(init, g);
      ExistsInitLast((p: string) => Strip(p) != [] && g == Starred(Strip(p)), pieces);
    }
  }

  lemma {:induction false} FamilyEntriesArePatterns(pieces: seq<string>)
    requires forall i :: 0 <= i < |pieces| ==> !HasChar(pieces[i], '+')
    ensures forall f :: f in FamilyEntries(pieces) ==> IsPattern(f)
  {
    if pieces != [] {
      var init := pieces[..|pieces| - 1];
      assert forall j :: 0 <= j < |init| ==> init[j] == pieces[j];
      FamilyEntriesArePatterns(init);
      StarredPattern(pieces[|pieces| - 1]);
    }
  }

  /** A `family=` value yields only well-formed patterns. */
  lemma FamilyListArePatterns(value: string)
    ensures forall f :: f in FamilyList(value) ==> IsPattern(f)
  {
    var pieces := Split(value, {'+'});
    forall i | 0 <= i < |pieces| ensures !HasChar(pieces[i], '+') {
      assert forall j :: 0 <= j < |pieces[i]| ==> pieces[i][j] !in {'+'};
    }
    FamilyEntriesArePatterns(pieces);
  }

  lemma PatternFixed(f: string)
    requires IsPattern(f)
    ensures Strip(f) != [] && Starred(Strip(f)) == f
  {
    assert Strip(f) == f;
  }

  lemma {:induction false} FamilyEntriesFixed(fams: seq<string>)
    requires forall f :: f in fams ==> IsPattern(f)
    ensures FamilyEntries(fams) == fams
  {
    if fams != [] {
      var init, last := fams[..|fams| - 1], fams[|fams| - 1];
      assert fams == init + [last];
      PatternFixed(last);
      assert forall f :: f in init ==> f in fams;
      FamilyEntriesFixed(init);
    }
  }

  /** Patterns joined with `+` read back as the same list. */
  lemma FamilyListRoundTrip(fams: seq<string>)
    requires forall f :: f in fams ==> IsPattern(f)
    ensures FamilyList(Join(fams, "+")) == fams
  {
    if fams == [] {
      assert Split("", {'+'}) == [""];
    } else {
      assert forall i :: 0 <= i < |fams| ==> fams[i] in fams;
      SplitJoin(fams, '+');
      FamilyEntriesFixed(fams);
    }
  }

  /** An entry of an inline dict, with the type of value its key holds. */
  predicate EntryShaped(e: (string, Value))
  {
    || ((e.0 == "cpu" || e.0 == "ram") && e.1.VReq? && e.1.req.minVal.Int? &&
        (e.1.req.maxVal.None? || e.1.req.maxVal.value.Int?))
    || (e.0 == "families" && e.1.VFamilies? && e.1.families != [] &&
        forall f :: f in e.1.families ==> IsPattern(f))
    || (e.0 == "spot" && e.1.VSpot?)
  }

  predicate InlineShaped(d: Dict)
  {
    DistinctKeys(d) && forall i :: 0 <= i < |d| ==> EntryShaped(d[i])
  }

  lemma PartResultShaped(part: string)
    requires PartResult(part).Ok? && PartResult(part).value.Some?
    ensures EntryShaped(PartResult(part).value.value)
  {
    PartEntryShaped(PartKey(part), After(part, '='));
  }

  lemma PartEntryShaped(key: string, value: string)
    requires PartEntry(key, value).Ok? && PartEntry(key, value).value.Some?
    ensures EntryShaped(PartEntry(key, value).value.value)
  {
    if key == "family" {
      FamilyListArePatterns(value);
    }
  }

  /** The dict holds only `cpu`, `ram` (integer requirements), `families` (patterns) and `spot`, each once. */
  lemma {:induction false} FoldShaped(os: seq<Outcome>)
    requires forall i :: 0 <= i < |os| ==> os[i].Ok? && os[i].value.Some? ==> EntryShaped(os[i].value.value)
    requires FoldOutcomes(os).Ok?
    ensures InlineShaped(FoldOutcomes(os).value)
  {
    if os != [] {
      var init := os[..|os| - 1];
      assert FoldOutcomes(init).Ok?;
      assert forall j :: 0 <= j < |init| ==> init[j] == os[j];
      FoldShaped(init);
      var d := FoldOutcomes(init).value;
      var o := os[|os| - 1];
      if o.value.Some? {
        AssignDistinct(d, o.value.value.0, o.value.value.1);
      }
    }
  }

  /** A parsed inline dict holds only well-typed `cpu`, `ram`, `families` and `spot` entries, each once. */
  lemma InlineSpecShaped(jobLabel: string)
    requires InlineSpec(jobLabel).Ok? && InlineSpec(jobLabel).value.Some?
    ensures InlineShaped(InlineSpec(jobLabel).value.value)
  {
    var os := Outcomes(Split(jobLabel, LabelSeps));
    forall i | 0 <= i < |os| && os[i].Ok? && os[i].value.Some? ensures EntryShaped(os[i].value.value) {
      PartResultShaped(Split(jobLabel, LabelSeps)[i]);
    }
    FoldShaped(os);
  }

  // parse_runner_from_labels

  /** `runner=` followed by a character the name may hold starts at `p`. */
  predicate NameAt(s: string, p: nat)
  {
    p + 8 <= |s| && s[p..p + 7] == "runner=" && s[p + 7] !in LabelSeps
  }

  /** `re.search(r"runner=([^/,]+)", s[p:])`: the leftmost match, and its longest name. */
  function RunnerNameFrom(s: string, p: nat): (r: Option<string>)
    requires p <= |s|
    ensures r.None? <==> forall q :: p <= q < |s| ==> !NameAt(s, q)
    ensures r.Some? ==> exists q :: p <= q < |s| && NameAt(s, q) && (forall q' :: p <= q' < q ==> !NameAt(s, q')) &&
                          r.value == Split(s[q + 7..], LabelSeps)[0]
    decreases |s| - p
  {
    if p == |s| then None
    else if NameAt(s, p) then Some(Split(s[p + 7..], LabelSeps)[0])
    else RunnerNameFrom(s, p + 1)
  }

  /** The runner name of a label: non-empty and free of `/` and `,`. */
  function RunnerName(s: string): (r: Option<string>)
    ensures r.Some? ==> r.value != [] && forall i :: 0 <= i < |r.value| ==> r.value[i] !in LabelSeps
  {
    var r := RunnerNameFrom(s, 0);
    if r.Some? then
      var q :| 0 <= q < |s| && NameAt(s, q) && r.value == Split(s[q + 7..], LabelSeps)[0];
      SplitHeadNonEmpty(s[q + 7..], LabelSeps);
      r
    else r
  }

  /** The index of the first element of `xs` that satisfies `p`. */
  function FirstWhere(xs: seq<string>, p: string -> bool, from: nat): (r: Option<nat>)
    requires from <= |xs|
    ensures r.None? <==> forall i :: from <= i < |xs| ==> !p(xs[i])
    ensures r.Some? ==> from <= r.value < |xs| && p(xs[r.value]) && forall j :: from <= j < r.value ==> !p(xs[j])
    decreases |xs| - from
  {
    if from == |xs| then None
    else if p(xs[from]) then Some(from)
    else FirstWhere(xs, p, from + 1)
  }

  /** An index that satisfies `p` after none before it does is the first one. */
  lemma FirstWhereIs(xs: seq<string>, p: string -> bool, i: nat)
    requires i < |xs| && p(xs[i]) && forall j :: 0 <= j < i ==> !p(xs[j])
    ensures FirstWhere(xs, p, 0) == Some(i)
  {
  }

  predicate IsRunsOnLabel(l: string)
  {
    StartsWith(l, "runs-on=")
  }

  /** A GitHub-hosted runner label: it starts with ubuntu, linux, windows or macos in any case. */
  predicate IsHostedLabel(l: string)
  {
    var low := Lower(l);
    StartsWith(low, "ubuntu") || StartsWith(low, "linux") || StartsWith(low, "windows") || StartsWith(low, "macos")
  }

  /** The `(runner_name, inline_overrides, is_runs_on)` triple. */
  datatype LabelRunner = LabelRunner(runnerName: Option<string>, inline: Option<Dict>, isRunsOn: bool)

  /**
   * The first `runs-on=` label decides; without one, the first hosted-runner label names the
   * runner; only the inline spec of the deciding label can fail.
   */
  function RunnerFromLabels(labels: seq<string>): (r: Result<LabelRunner>)
    ensures r.Ok? ==> (r.value.isRunsOn <==> exists i :: 0 <= i < |labels| && IsRunsOnLabel(labels[i]))
    ensures r.Err? ==> exists i :: 0 <= i < |labels| && IsRunsOnLabel(labels[i])
    ensures r.Ok? && !r.value.isRunsOn ==>
              r.value.inline.None? &&
              (r.value.runnerName.Some? <==> exists i :: 0 <= i < |labels| && IsHostedLabel(labels[i])) &&
              (r.value.runnerName.Some? ==> r.value.runnerName.value in labels && IsHostedLabel(r.value.runnerName.value))
    ensures (exists i :: 0 <= i < |labels| && IsRunsOnLabel(labels[i])) ==>
              exists i :: 0 <= i < |labels| && IsRunsOnLabel(labels[i]) && (forall j :: 0 <= j < i ==> !IsRunsOnLabel(labels[j])) &&
                r == (match InlineSpec(labels[i])
                      case Err(m) => Err(m)
                      case Ok(o) => Ok(LabelRunner(RunnerName(labels[i]), o, true)))
    ensures r.Ok? && !r.value.isRunsOn && r.value.runnerName.Some? ==>
              exists i :: 0 <= i < |labels| && IsHostedLabel(labels[i]) && (forall j :: 0 <= j < i ==> !IsHostedLabel(labels[j])) &&
                r.value.runnerName == Some(labels[i])
  {
    match FirstWhere(labels, IsRunsOnLabel, 0)
    case Some(i) =>
      (match InlineSpec(labels[i])
       case Err(m) => Err(m)
       case Ok(o) => Ok(LabelRunner(RunnerName(labels[i]), o, true)))
    case None =>
      match FirstWhere(labels, IsHostedLabel, 0)
      case Some(i) => Ok(LabelRunner(Some(labels[i]), None, false))
      case None => Ok(LabelRunner(None, None, false))
  }

  /** `parse_runner_from_labels` */
  method ParseRunnerFromLabels(labels: seq<string>) returns (r: Result<LabelRunner>)
    ensures r == RunnerFromLabels(labels)
  {
    for i := 0 to |labels|
      invariant forall j :: 0 <= j < i ==> !IsRunsOnLabel(labels[j])
    {
      if !StartsWith(labels[i], "runs-on=") {
        continue;
      }
      FirstWhereIs(labels, IsRunsOnLabel, i);
      var runnerName := RunnerName(labels[i]);
      var inline := ParseInlineRunnerSpec(labels[i]);
      if inline.Err? {
        return Err(inline.msg);
      }
      return Ok(LabelRunner(runnerName, inline.value, true));
    }
    for i := 0 to |labels|
      invariant forall j :: 0 <= j < i ==> !IsHostedLabel(labels[j])
    {
      var lower := Lower(labels[i]);
      if IsHostedLabel(labels[i]) {
        FirstWhereIs(labels, IsHostedLabel, i);
      }
      if StartsWith(lower, "ubuntu") || StartsWith(lower, "linux") {
        return Ok(LabelRunner(Some(labels[i]), None, false));
      }
      if StartsWith(lower, "windows") {
        return Ok(LabelRunner(Some(labels[i]), None, false));
      }
      if StartsWith(lower, "macos") {
        return Ok(LabelRunner(Some(labels[i]), None, false));
      }
    }
    return Ok(LabelRunner(None, None, false));
  }

  /** A hosted-runner label placed before the `runs-on=` label changes nothing. */
  lemma RunsOnBeatsHosted(h: string, labels: seq<string>)
    requires !IsRunsOnLabel(h)
    requires exists i :: 0 <= i < |labels| && IsRunsOnLabel(labels[i])
    ensures RunnerFromLabels([h] + labels) == RunnerFromLabels(labels)
  {
    var all := [h] + labels;
    var i := FirstWhere(labels, IsRunsOnLabel, 0).value;
    assert all[i + 1] == labels[i];
    assert forall j :: 1 <= j < i + 1 ==> all[j] == labels[j - 1];
    assert FirstWhere(all, IsRunsOnLabel, 0) == Some(i + 1);
  }

  // merge_runner_config

  /** The keys inline overrides may replace. */
  const OverrideKeys: seq<string> := ["families", "cpu", "ram", "spot"]

  /** `if k in overrides: result[k] = overrides[k]` */
  function Override(d: Dict, overrides: Dict, k: string): Dict
  {
    match Lookup(overrides, k)
    case None => d
    case Some(v) => Assign(d, k, v)
  }

  /**
   * `merge_runner_config`: each of families, cpu, ram and spot present in the overrides replaces
   * the base's value (a families list is replaced, not extended); every other key keeps the
   * base's value.
   */
  function Merged(base: Dict, overrides: Dict): (r: Dict)
    ensures forall k :: Lookup(r, k) ==
              if k in OverrideKeys && Lookup(overrides, k).Some? then Lookup(overrides, k) else Lookup(base, k)
  {
    var d1 := Override(base, overrides, "families");
    var d2 := Override(d1, overrides, "cpu");
    var d3 := Override(d2, overrides, "ram");
    var r := Override(d3, overrides, "spot");
    assert forall k :: Lookup(r, k) ==
              if k in OverrideKeys && Lookup(overrides, k).Some? then Lookup(overrides, k) else Lookup(base, k) by {
      forall k
        ensures Lookup(r, k) ==
                  if k in OverrideKeys && Lookup(overrides, k).Some? then Lookup(overrides, k) else Lookup(base, k)
      {
        OverrideLookup(base, overrides, "families", k);
        OverrideLookup(d1, overrides, "cpu", k);
        OverrideLookup(d2, overrides, "ram", k);
        OverrideLookup(d3, overrides, "spot", k);
      }
    }
    r
  }

  /** One override replaces its own key when the overrides hold it and leaves every other key alone. */
  lemma OverrideLookup(d: Dict, overrides: Dict, name: string, k: string)
    ensures Lookup(Override(d, overrides, name), k) ==
              if k == name && Lookup(overrides, name).Some? then Lookup(overrides, name) else Lookup(d, k)
  {
  }

  lemma MergedDistinct(base: Dict, overrides: Dict)
    requires DistinctKeys(base)
    ensures DistinctKeys(Merged(base, overrides))
  {
    var d1 := Override(base, overrides, "families");
    var d2 := Override(d1, overrides, "cpu");
    var d3 := Override(d2, overrides, "ram");
    if Lookup(overrides, "families").Some? { AssignDistinct(base, "families", Lookup(overrides, "families").value); }
    if Lookup(overrides, "cpu").Some? { AssignDistinct(d1, "cpu", Lookup(overrides, "cpu").value); }
    if Lookup(overrides, "ram").Some? { AssignDistinct(d2, "ram", Lookup(overrides, "ram").value); }
    if Lookup(overrides, "spot").Some? { AssignDistinct(d3, "spot", Lookup(overrides, "spot").value); }
  }

  /** `base.copy()`, then one assignment per override key present. */
  method MergeRunnerConfig(base: Dict, overrides: Dict) returns (result: Dict)
    ensures result == Merged(base, overrides)
  {
    result := base;
    if Lookup(overrides, "families").Some? {
      result := Assign(result, "families", Lookup(overrides, "families").value);
    }
    if Lookup(overrides, "cpu").Some? {
      result := Assign(result, "cpu", Lookup(overrides, "cpu").value);
    }
    if Lookup(overrides, "ram").Some? {
      result := Assign(result, "ram", Lookup(overrides, "ram").value);
    }
    if Lookup(overrides, "spot").Some? {
      result := Assign(result, "spot", Lookup(overrides, "spot").value);
    }
  }

  /** Assigning the value a key already holds changes nothing. */
  lemma {:induction false} AssignSame(d: Dict, k: string, v: Value)
    requires Lookup(d, k) == Some(v)
    ensures Assign(d, k, v) == d
  {
    if d[0].0 != k {
      AssignSame(d[1..], k, v);
    }
  }

  /** Overrides without any of the four keys leave the base as it is. */
  lemma MergeNothing(base: Dict, overrides: Dict)
    requires forall k :: k in OverrideKeys ==> Lookup(overrides, k).None?
    ensures Merged(base, overrides) == base
  {
    assert "families" in OverrideKeys && "cpu" in OverrideKeys && "ram" in OverrideKeys && "spot" in OverrideKeys;
  }

  lemma OverrideAgain(d: Dict, overrides: Dict, k: string)
    requires Lookup(overrides, k).Some? ==> Lookup(d, k) == Lookup(overrides, k)
    ensures Override(d, overrides, k) == d
  {
    if Lookup(overrides, k).Some? {
      AssignSame(d, k, Lookup(overrides, k).value);
    }
  }

  /** Applying the same overrides twice is applying them once. */
  lemma MergeIdempotent(base: Dict, overrides: Dict)
    ensures Merged(Merged(base, overrides), overrides) == Merged(base, overrides)
  {
    var m := Merged(base, overrides);
    assert "families" in OverrideKeys && "cpu" in OverrideKeys && "ram" in OverrideKeys && "spot" in OverrideKeys;
    OverrideAgain(m, overrides, "families");
    OverrideAgain(m, overrides, "cpu");
    OverrideAgain(m, overrides, "ram");
    OverrideAgain(m, overrides, "spot");
  }

  /** Every setting of a parsed inline label wins over the named runner's, and only those change. */
  lemma MergeInline(base: Dict, jobLabel: string, k: string)
    requires InlineSpec(jobLabel).Ok? && InlineSpec(jobLabel).value.Some?
    ensures var o := InlineSpec(jobLabel).value.value;
            Lookup(Merged(base, o), k) == if Lookup(o, k).Some? then Lookup(o, k) else Lookup(base, k)
  {
    var o := InlineSpec(jobLabel).value.value;
    InlineSpecShaped(jobLabel);
    if Lookup(o, k).Some? {
      var i :| 0 <= i < |o| && o[i] == (k, Lookup(o, k).value);
      assert EntryShaped(o[i]);
    }
  }

  // format_inline_spec

  /** `min` or `min-max` */
  function RangeText(req: Requirement): string
  {
    if req.maxVal.Some? then Show(req.minVal) + "-" + Show(req.maxVal.value) else Show(req.minVal)
  }

  /** Up to three patterns joined with `+`; more show the first two and `+...`. */
  function FamiliesText(fams: seq<string>): string
  {
    if |fams| <= 3 then Join(fams, "+") else Join(fams[..2], "+") + "+..."
  }

  /** The entries the display reads have the types it expects. */
  predicate Displayable(cfg: Dict)
  {
    && (Lookup(cfg, "cpu").None? || Lookup(cfg, "cpu").value.VReq?)
    && (Lookup(cfg, "ram").None? || Lookup(cfg, "ram").value.VReq?)
    && (Lookup(cfg, "families").None? || Lookup(cfg, "families").value.VFamilies?)
  }

  /** The part of a `cpu` or `ram` entry, if present. */
  function ReqPart(name: string, v: Option<Value>): seq<string>
    requires v.None? || v.value.VReq?
  {
    if v.Some? then [name + RangeText(v.value.req)] else []
  }

  /** The part of the `families` entry, if present. */
  function FamilyPart(v: Option<Value>): seq<string>
    requires v.None? || v.value.VFamilies?
  {
    if v.Some? then ["family=" + FamiliesText(v.value.families)] else []
  }

  /** The display parts, in the order cpu, ram, family. */
  function InlineParts(cfg: Dict): (parts: seq<string>)
    requires Displayable(cfg)
    ensures |parts| <= 3
  {
    ReqPart("cpu=", Lookup(cfg, "cpu")) + ReqPart("ram=", Lookup(cfg, "ram")) + FamilyPart(Lookup(cfg, "families"))
  }

  /** `format_inline_spec` as a value. */
  function InlineText(cfg: Dict): string
    requires Displayable(cfg)
  {
    var parts := InlineParts(cfg);
    if parts == [] then "inline" else Join(parts, "/")
  }

  /** `format_inline_spec` */
  method FormatInlineSpec(cfg: Dict) returns (text: string)
    requires Displayable(cfg)
    ensures text == InlineText(cfg)
  {
    var parts: seq<string> := [];
    if Lookup(cfg, "cpu").Some? {
      var cpu := Lookup(cfg, "cpu").value.req;
      if cpu.maxVal.Some? {
        assert "cpu=" + Show(cpu.minVal) + "-" + Show(cpu.maxVal.value) == "cpu=" + RangeText(cpu);
        parts := parts + ["cpu=" + Show(cpu.minVal) + "-" + Show(cpu.maxVal.value)];
      } else {
        parts := parts + ["cpu=" + Show(cpu.minVal)];
      }
    }
    assert parts == ReqPart("cpu=", Lookup(cfg, "cpu"));
    if Lookup(cfg, "ram").Some? {
      var ram := Lookup(cfg, "ram").value.req;
      if ram.maxVal.Some? {
        assert "ram=" + Show(ram.minVal) + "-" + Show(ram.maxVal.value) == "ram=" + RangeText(ram);
        parts := parts + ["ram=" + Show(ram.minVal) + "-" + Show(ram.maxVal.value)];
      } else {
        parts := parts + ["ram=" + Show(ram.minVal)];
      }
    }
    assert parts == ReqPart("cpu=", Lookup(cfg, "cpu")) + ReqPart("ram=", Lookup(cfg, "ram"));
    if Lookup(cfg, "families").Some? {
      var fams := Lookup(cfg, "families").value.families;
      if |fams| <= 3 {
        parts := parts + ["family=" + Join(fams, "+")];
      } else {
        assert "family=" + Join(fams[..2], "+") + "+..." == "family=" + FamiliesText(fams);
        parts := parts + ["family=" + Join(fams[..2], "+") + "+..."];
      }
    }
    assert parts == InlineParts(cfg);
    text := if parts == [] then "inline" else Join(parts, "/");
  }

  lemma {:induction false} JoinStartsWith(xs: seq<string>, sep: string)
    requires xs != []
    ensures StartsWith(Join(xs, sep), xs[0])
  {
    if |xs| > 1 {
      assert Join(xs, sep)[..|xs[0]|] == xs[0];
    }
  }

  /** The display is `inline` exactly when the dict has none of cpu, ram and families. */
  lemma InlineTextDefault(cfg: Dict)
    requires Displayable(cfg)
    ensures InlineText(cfg) == "inline" <==>
              Lookup(cfg, "cpu").None? && Lookup(cfg, "ram").None? && Lookup(cfg, "families").None?
  {
    var parts := InlineParts(cfg);
    if parts != [] {
      JoinStartsWith(parts, "/");
      assert parts[0][0] == 'c' || parts[0][0] == 'r' || parts[0][0] == 'f';
      assert InlineText(cfg)[0] == parts[0][0];
    }
  }

  /** The display splits back into its parts at `/` when no part holds one. */
  lemma InlineTextSplits(cfg: Dict)
    requires Displayable(cfg) && InlineParts(cfg) != []
    requires forall i :: 0 <= i < |InlineParts(cfg)| ==> !HasChar(InlineParts(cfg)[i], '/')
    ensures Split(InlineText(cfg), {'/'}) == InlineParts(cfg)
  {
    SplitJoin(InlineParts(cfg), '/');
  }

  /**
   * Up to three family patterns display as a `family=` value that reads back as the same list;
   * longer lists read back as their first two patterns and `...`.
   */
  lemma FamiliesTextRoundTrip(fams: seq<string>)
    requires forall f :: f in fams ==> IsPattern(f)
    ensures |fams| <= 3 ==> FamilyList(FamiliesText(fams)) == fams
    ensures |fams| > 3 ==> FamilyList(FamiliesText(fams)) == [fams[0], fams[1], "..."]
  {
    if |fams| <= 3 {
      FamilyListRoundTrip(fams);
    } else {
      var short := [fams[0], fams[1], "..."];
      assert fams[..2] == [fams[0], fams[1]];
      assert Join(short, "+") == FamiliesText(fams) by {
        assert Join(short[2..], "+") == "...";
        assert Join(short[1..], "+") == fams[1] + "+" + "...";
        assert Join(fams[..2], "+") == fams[0] + "+" + fams[1];
      }
      StripPlain("...");
      assert "..."[0] == '.';
      assert !HasChar("...", '+');
      assert fams[0] in fams && fams[1] in fams;
      FamilyListRoundTrip(short);
    }
  }
}
