/**
 * Architecture and category inference from an EC2 instance name such as `m7gd.2xlarge`:
 * position-based rules over the family part of the name (`m7gd`).
 */
module Inference {
  import opened Wrappers
  import opened Text

  /** `get_family_prefix`: the family part of a name, the text before its first `.`. */
  function FamilyPrefix(apiName: string): (r: string)
    ensures !HasChar(r, '.')
    ensures StartsWith(apiName, r)
    ensures HasChar(apiName, '.') ==> |r| < |apiName| && apiName[|r|] == '.'
    ensures !HasChar(apiName, '.') ==> r == apiName
  {
    if HasChar(apiName, '.') then
      SplitHead(apiName, '.');
      Split(apiName, {'.'})[0]
    else apiName
  }

  /** The rules of `infer_arch` applied to a lower-cased family part. */
  function ArchOfFamily(family: string): (r: string)
    ensures r == "x86_64" || r == "amd64" || r == "arm64"
  {
    if |family| < 2 then "x86_64"
    else
      var suffix := family[2..];
      if HasChar(suffix, 'g') || StartsWith(family, "a1") || StartsWith(family, "t4g") then "arm64"
      else if HasChar(suffix, 'a') then "amd64"
      else "x86_64"
  }

  /** `infer_arch`: "arm64" for Graviton, "amd64" for AMD, "x86_64" otherwise. */
  function InferArch(apiName: string): (r: string)
    ensures r == "x86_64" || r == "amd64" || r == "arm64"
  {
    ArchOfFamily(Lower(FamilyPrefix(apiName)))
  }

  /** The family text `infer_arch` classifies. */
  function LoweredFamily(apiName: string): string
  {
    Lower(FamilyPrefix(apiName))
  }

  /** The three rules of `infer_arch`, in the order the source applies them. */
  lemma InferArchRules(apiName: string)
    ensures var f := LoweredFamily(apiName);
      && (|f| < 2 ==> InferArch(apiName) == "x86_64")
      && (|f| >= 2 ==>
            (InferArch(apiName) == "arm64" <==> HasChar(f[2..], 'g') || StartsWith(f, "a1") || StartsWith(f, "t4g")))
      && (|f| >= 2 && InferArch(apiName) != "arm64" ==>
            (InferArch(apiName) == "amd64" <==> HasChar(f[2..], 'a')))
  {
  }

  lemma {:induction false} BeforeDotLower(s: string)
    ensures Before(Lower(s), '.') == Lower(Before(s, '.'))
  {
    if s != [] {
      assert Lower(s)[1..] == Lower(s[1..]);
      BeforeDotLower(s[1..]);
    }
  }

  lemma FamilyPrefixIsBefore(s: string)
    ensures FamilyPrefix(s) == Before(s, '.')
  {
    if HasChar(s, '.') {
      SplitHead(s, '.');
    }
  }

  /** Lower-casing the name first does not change the family part, up to case. */
  lemma FamilyPrefixLower(apiName: string)
    ensures FamilyPrefix(Lower(apiName)) == Lower(FamilyPrefix(apiName))
  {
    FamilyPrefixIsBefore(apiName);
    FamilyPrefixIsBefore(Lower(apiName));
    BeforeDotLower(apiName);
  }

  /** `infer_arch` ignores the case of the name. */
  lemma InferArchCaseInsensitive(apiName: string)
    ensures InferArch(Lower(apiName)) == InferArch(apiName)
  {
    FamilyPrefixLower(apiName);
    LowerIdempotent(FamilyPrefix(apiName));
    assert Lower(FamilyPrefix(Lower(apiName))) == Lower(FamilyPrefix(apiName));
  }

  /** The fixed first-letter table of `get_instance_category`. */
  function CategoryTable(c: char): Option<string>
  {
    match c
    case 'c' => Some("compute")
    case 'm' => Some("general")
    case 'r' => Some("memory")
    case 't' => Some("burstable")
    case 'i' => Some("storage")
    case 'x' => Some("memory")
    case 'z' => Some("high-freq")
    case 'g' => Some("gpu")
    case 'p' => Some("gpu")
    case 'h' => Some("storage")
    case 'd' => Some("storage")
    case 'f' => Some("fpga")
    case 'v' => Some("video")
    case _ => None
  }

  predicate IsCategory(s: string)
  {
    s in {"compute", "general", "memory", "burstable", "storage", "high-freq", "gpu", "fpga", "video",
          "ml-inference", "other"}
  }

  /**
   * `get_instance_category`. `family[0]` is read before anything else, so a name with an
   * empty family part (`""`, `".large"`) raises IndexError.
   */
  function InstanceCategory(apiName: string): (r: Result<string>)
    ensures r.Err? <==> FamilyPrefix(apiName) == []
    ensures r.Ok? ==> IsCategory(r.value)
  {
    var family := Lower(FamilyPrefix(apiName));
    if family == [] then Err("string index out of range")
    else
      var prefix := family[0];
      if StartsWith(family, "inf") then Ok("ml-inference")
      else if StartsWith(family, "a1") then Ok("general")
      else Ok(CategoryTable(prefix).GetOr("other"))
  }

  /** `inf` is tested before the table, whose entry for `i` is "storage"; `a1` before the `a`-less table. */
  lemma CategoryOverrides(apiName: string)
    ensures StartsWith(LoweredFamily(apiName), "inf") ==>
              InstanceCategory(apiName) == Ok("ml-inference") && CategoryTable('i') == Some("storage")
    ensures StartsWith(LoweredFamily(apiName), "a1") ==>
              InstanceCategory(apiName) == Ok("general") && CategoryTable('a') == None
  {
  }

  /** Without an override, the first letter is looked up; an unmapped letter gives "other". */
  lemma CategoryByFirstLetter(apiName: string)
    requires LoweredFamily(apiName) != []
    requires !StartsWith(LoweredFamily(apiName), "inf") && !StartsWith(LoweredFamily(apiName), "a1")
    ensures var c := LoweredFamily(apiName)[0];
      InstanceCategory(apiName) == Ok(if CategoryTable(c).Some? then CategoryTable(c).value else "other")
  {
  }

  /** The family part of `<family>.<size>` is `<family>`. */
  lemma FamilyPrefixOf(family: string, size: string)
    requires !HasChar(family, '.')
    ensures FamilyPrefix(family + "." + size) == family
  {
    FamilyPrefixIsBefore(family + "." + size);
    BeforeAfterConcat(family, '.', size);
  }

  /** A family text with no upper-case letters is its own lower-case form. */
  lemma LowerOfLower(s: string)
    requires forall i :: 0 <= i < |s| ==> !IsUpper(s[i])
    ensures Lower(s) == s
  {
  }

  lemma InferArchGravitonExample()
    ensures InferArch("m7g.large") == "arm64"
  {
    assert "m7g.large" == "m7g" + "." + "large";
    FamilyPrefixOf("m7g", "large");
    LowerOfLower("m7g");
    assert "m7g"[2..] == "g" && "g"[0] == 'g';
    assert ArchOfFamily("m7g") == "arm64";
  }

  lemma InferArchAmdExample()
    ensures InferArch("m7a.large") == "amd64"
  {
    assert "m7a.large" == "m7a" + "." + "large";
    FamilyPrefixOf("m7a", "large");
    LowerOfLower("m7a");
    assert ArchOfFamily("m7a") == "amd64" by {
      assert "m7a"[2..] == "a" && "a"[0] == 'a';
      assert !HasChar("a", 'g');
      assert "m7a"[..2] != "a1" && "m7a"[..3] != "t4g";
    }
  }

  lemma InstanceCategoryInferenceExample()
    ensures InstanceCategory("inf1.xlarge") == Ok("ml-inference")
  {
    assert "inf1.xlarge" == "inf1" + "." + "xlarge";
    FamilyPrefixOf("inf1", "xlarge");
    LowerOfLower("inf1");
    assert "inf1"[..3] == "inf";
  }
}
