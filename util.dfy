/**
 * The small parsers and formatters of the command line: counts with a unit in catalogue text
 * ("8 vCPUs", "10000 Mbps"), durations in whole seconds and value ranges.
 */
module Util {
  import opened Wrappers
  import opened Text
  import opened Numerals

  // parse_vcpus, parse_ebs_bandwidth

  /** The end of the run of digits that starts at `p`. */
  function DigitRunEnd(s: string, p: nat): (e: nat)
    requires p <= |s|
    ensures p <= e <= |s| && (e == |s| || !IsDigit(s[e]))
    ensures forall i :: p <= i < e ==> IsDigit(s[i])
    decreases |s| - p
  {
    if p < |s| && IsDigit(s[p]) then DigitRunEnd(s, p + 1) else p
  }

  /** The end of the run of whitespace (`\s*`) that starts at `p`. */
  function SpaceRunEnd(s: string, p: nat): (e: nat)
    requires p <= |s|
    ensures p <= e <= |s| && (e == |s| || !IsSpace(s[e]))
    ensures forall i :: p <= i < e ==> IsSpace(s[i])
    decreases |s| - p
  {
    if p < |s| && IsSpace(s[p]) then SpaceRunEnd(s, p + 1) else p
  }

  /**
   * `(\d+)\s*<unit>` matches at `p` (case-insensitively): digits from `p`, optional whitespace,
   * then the unit. A shorter digit or whitespace run cannot help, since a digit is neither
   * whitespace nor the unit's first letter.
   */
  predicate CountAt(s: string, p: nat, unit: string)
  {
    p < |s| && IsDigit(s[p]) &&
      var q := SpaceRunEnd(s, DigitRunEnd(s, p));
      StartsWith(Lower(s[q..]), unit)
  }

  /** The number a match at `p` captures. */
  function CountValue(s: string, p: nat): nat
    requires p <= |s|
  {
    var e := DigitRunEnd(s, p);
    DigitsValue(s[p..e])
  }

  /** `re.search(r"(\d+)\s*<unit>", s[p:], re.IGNORECASE)`: the leftmost match. */
  function CountFrom(s: string, p: nat, unit: string): (r: Option<nat>)
    requires p <= |s|
    ensures r.None? <==> forall q :: p <= q < |s| ==> !CountAt(s, q, unit)
    ensures r.Some? ==> exists q :: p <= q < |s| && CountAt(s, q, unit) &&
                          (forall q' :: p <= q' < q ==> !CountAt(s, q', unit)) && r.value == CountValue(s, q)
  {
    var at := (q: nat) => CountAt(s, q, unit);
    match FirstFrom(p, |s|, at)
    case None =>
      assert forall q :: p <= q < |s| ==> !CountAt(s, q, unit) by {
        forall q | p <= q < |s| ensures !CountAt(s, q, unit) { assert !at(q); }
      }
      None
    case Some(q) =>
      assert at(q);
      assert forall q' :: p <= q' < q ==> !CountAt(s, q', unit) by {
        forall q' | p <= q' < q ensures !CountAt(s, q', unit) { assert !at(q'); }
      }
      Some(CountValue(s, q))
  }

  /** The leftmost position from `p` below `n` at which `at` holds, if any. */
  function FirstFrom(p: nat, n: nat, at: nat -> bool): (r: Option<nat>)
    requires p <= n
    ensures r.None? <==> forall q :: p <= q < n ==> !at(q)
    ensures r.Some? ==> p <= r.value < n && at(r.value) && forall q :: p <= q < r.value ==> !at(q)
    decreases n - p
  {
    if p == n then None else if at(p) then Some(p) else FirstFrom(p + 1, n, at)
  }

  /** The count before a unit, or None for empty text or no match. */
  function ParseCount(s: string, unit: string): Option<nat>
  {
    if s == [] then None else CountFrom(s, 0, unit)
  }

  /** `parse_vcpus`: `vCPU` or `vCPUs`, in any case */
  function ParseVcpus(s: string): Option<nat>
  {
    ParseCount(s, "vcpu")
  }

  /** `parse_ebs_bandwidth`: `Mbps`, in any case */
  function ParseEbsBandwidth(s: string): Option<nat>
  {
    ParseCount(s, "mbps")
  }

  lemma {:induction false} DigitRunEndAt(s: string, p: nat, e: nat)
    requires p <= e <= |s| && (forall i :: p <= i < e ==> IsDigit(s[i])) && (e == |s| || !IsDigit(s[e]))
    ensures DigitRunEnd(s, p) == e
    decreases e - p
  {
    if p < e {
      DigitRunEndAt(s, p + 1, e);
    }
  }

  lemma {:induction false} SpaceRunEndAt(s: string, p: nat, e: nat)
    requires p <= e <= |s| && (forall i :: p <= i < e ==> IsSpace(s[i])) && (e == |s| || !IsSpace(s[e]))
    ensures SpaceRunEnd(s, p) == e
    decreases e - p
  {
    if p < e {
      SpaceRunEndAt(s, p + 1, e);
    }
  }

  /** A count written with `str()`, one space and a unit word reads back as the count. */
  lemma CountRoundTrip(n: nat, word: string, unit: string)
    requires word != [] && !IsSpace(word[0]) && StartsWith(Lower(word), unit)
    ensures ParseCount(NatStr(n) + ([' '] + word), unit) == Some(n)
  {
    var digits := NatStr(n);
    var s := digits + ([' '] + word);
    assert s[|digits|] == ' ';
    assert forall i :: 0 <= i < |digits| ==> s[i] == digits[i];
    DigitRunEndAt(s, 0, |digits|);
    assert s[|digits| + 1] == word[0];
    SpaceRunEndAt(s, |digits|, |digits| + 1);
    assert s[|digits| + 1..] == word;
    assert s[0..|digits|] == digits;
    assert CountAt(s, 0, unit);
  }

  /** "8 vCPUs" and "1 vCPU" give their counts. */
  lemma VcpusExample(n: nat)
    ensures ParseVcpus(NatStr(n) + " vCPUs") == Some(n)
    ensures ParseVcpus(NatStr(n) + " vCPU") == Some(n)
  {
    UnitWord("vCPUs", "vcpu");
    UnitWord("vCPU", "vcpu");
    assert " vCPUs" == [' '] + "vCPUs" && " vCPU" == [' '] + "vCPU";
    CountRoundTrip(n, "vCPUs", "vcpu");
    CountRoundTrip(n, "vCPU", "vcpu");
  }

  /** A word whose first letters, lowered, spell the unit names it. */
  lemma UnitWord(word: string, unit: string)
    requires |unit| <= |word| && forall i :: 0 <= i < |unit| ==> LowerChar(word[i]) == unit[i]
    ensures StartsWith(Lower(word), unit)
  {
    var l := Lower(word);
    forall i | 0 <= i < |unit| ensures l[..|unit|][i] == unit[i] { }
  }

  /** "10000 Mbps" gives 10000. */
  lemma BandwidthExample(n: nat)
    ensures ParseEbsBandwidth(NatStr(n) + " Mbps") == Some(n)
  {
    UnitWord("Mbps", "mbps");
    assert " Mbps" == [' '] + "Mbps";
    CountRoundTrip(n, "Mbps", "mbps");
  }

  /** A bandwidth given in another unit is not read: "10 Gbps" gives None. */
  lemma OtherUnitIgnored()
    ensures ParseEbsBandwidth("10 Gbps") == None
  {
    var s := "10 Gbps";
    assert !IsDigit(s[2]);
    DigitRunEndAt(s, 0, 2);
    DigitRunEndAt(s, 1, 2);
    SpaceRunEndAt(s, 2, 3);
    assert s[3..] == "Gbps";
    assert Lower("Gbps")[0] == 'g' by { assert "Gbps"[0] == 'G'; }
    assert !CountAt(s, 0, "mbps") && !CountAt(s, 1, "mbps");
    forall q | 2 <= q < |s| ensures !CountAt(s, q, "mbps") {
      assert !IsDigit(s[q]);
    }
  }

  // format_duration

  /**
   * `format_duration` for a whole number of seconds: `<s>s` under a minute, `<m>m <ss>s` under
   * an hour, `<h>h <mm>m` beyond, with the leftover seconds dropped.
   */
  function FormatDuration(seconds: int): (r: string)
    ensures seconds < 60 ==> r == IntStr(seconds) + "s"
    ensures 60 <= seconds < 3600 ==>
              exists m: nat, ss: nat :: ss < 60 && m * 60 + ss == seconds && r == NatStr(m) + "m " + Pad2(ss) + "s"
    ensures 3600 <= seconds ==>
              exists h: nat, mm: nat :: mm < 60 && h * 3600 + mm * 60 <= seconds < h * 3600 + mm * 60 + 60 &&
                r == NatStr(h) + "h " + Pad2(mm) + "m"
  {
    if seconds < 60 then IntStr(seconds) + "s"
    else
      var minutes := seconds / 60;
      var secs := seconds % 60;
      if minutes < 60 then NatStr(minutes) + "m " + Pad2(secs) + "s"
      else
        var hours := minutes / 60;
        var mins := minutes % 60;
        NatStr(hours) + "h " + Pad2(mins) + "m"
  }

  // format_range

  /** The position `min(xs)` takes its result from: the first of the smallest values. */
  function MinIndex(xs: seq<Num>): (k: nat)
    requires xs != []
    ensures k < |xs| && forall i :: 0 <= i < |xs| ==> Value(xs[k]) <= Value(xs[i])
    ensures forall i :: 0 <= i < k ==> Value(xs[k]) < Value(xs[i])
  {
    if |xs| == 1 then 0
    else
      var init := xs[..|xs| - 1];
      var k := MinIndex(init);
      assert forall i :: 0 <= i < |init| ==> xs[i] == init[i];
      if Value(xs[|xs| - 1]) < Value(xs[k]) then |xs| - 1 else k
  }

  /** The position `max(xs)` takes its result from: the first of the largest values. */
  function MaxIndex(xs: seq<Num>): (k: nat)
    requires xs != []
    ensures k < |xs| && forall i :: 0 <= i < |xs| ==> Value(xs[i]) <= Value(xs[k])
    ensures forall i :: 0 <= i < k ==> Value(xs[i]) < Value(xs[k])
  {
    if |xs| == 1 then 0
    else
      var init := xs[..|xs| - 1];
      var k := MaxIndex(init);
      assert forall i :: 0 <= i < |init| ==> xs[i] == init[i];
      if Value(xs[|xs| - 1]) > Value(xs[k]) then |xs| - 1 else k
  }

  /** `format_range`: `N/A`, one value, or `min-max`, followed by the suffix. */
  function FormatRange(xs: seq<Num>, suffix: string): (r: string)
    ensures xs == [] ==> r == "N/A"
    ensures xs != [] ==> |suffix| <= |r| && r[|r| - |suffix|..] == suffix
  {
    if xs == [] then "N/A"
    else
      var lo, hi := xs[MinIndex(xs)], xs[MaxIndex(xs)];
      if Value(lo) == Value(hi) then Show(lo) + suffix else Show(lo) + "-" + Show(hi) + suffix
  }

  /** Equal values are printed alike (true of ints, and of floats printed by `repr`). */
  predicate ShowsByValue(xs: seq<Num>)
  {
    forall a, b :: a in xs && b in xs && Value(a) == Value(b) ==> Show(a) == Show(b)
  }

  /** One value, or several equal ones, print once: `8 vCPUs` rather than `8-8 vCPUs`. */
  lemma RangeOfEqual(xs: seq<Num>, suffix: string)
    requires xs != [] && forall i :: 0 <= i < |xs| ==> Value(xs[i]) == Value(xs[0])
    ensures FormatRange(xs, suffix) == Show(xs[0]) + suffix
  {
  }

  /** Distinct values print as `lo-hi`, the smallest value first and the largest last. */
  lemma RangeOfDistinct(xs: seq<Num>, suffix: string, i: nat, j: nat)
    requires i < |xs| && j < |xs| && Value(xs[i]) != Value(xs[j])
    ensures exists lo :: lo in xs && (forall x :: x in xs ==> Value(lo) <= Value(x)) &&
              exists hi :: hi in xs && (forall x :: x in xs ==> Value(x) <= Value(hi)) &&
                FormatRange(xs, suffix) == Show(lo) + "-" + Show(hi) + suffix
  {
    var lo, hi := xs[MinIndex(xs)], xs[MaxIndex(xs)];
    assert Value(lo) < Value(hi);
    assert forall x :: x in xs ==> Value(lo) <= Value(x) && Value(x) <= Value(hi);
  }

  /** The smallest values of two orderings of the same values print alike. */
  lemma {:induction false} SameExtremes(xs: seq<Num>, ys: seq<Num>)
    requires xs != [] && multiset(xs) == multiset(ys) && ShowsByValue(xs)
    ensures ys != []
    ensures Value(xs[MinIndex(xs)]) == Value(ys[MinIndex(ys)]) && Show(xs[MinIndex(xs)]) == Show(ys[MinIndex(ys)])
    ensures Value(xs[MaxIndex(xs)]) == Value(ys[MaxIndex(ys)]) && Show(xs[MaxIndex(xs)]) == Show(ys[MaxIndex(ys)])
  {
    assert xs[0] in multiset(ys);
    var a, b := xs[MinIndex(xs)], ys[MinIndex(ys)];
    var c, d := xs[MaxIndex(xs)], ys[MaxIndex(ys)];
    assert a in multiset(ys) && c in multiset(ys);
    assert b in multiset(xs) && d in multiset(xs);
    var ia :| 0 <= ia < |ys| && ys[ia] == a;
    var ib :| 0 <= ib < |xs| && xs[ib] == b;
    var ic :| 0 <= ic < |ys| && ys[ic] == c;
    var id :| 0 <= id < |xs| && xs[id] == d;
  }

  /** With equal values printed alike, the range does not depend on the order of the values. */
  lemma RangeOrderFree(xs: seq<Num>, ys: seq<Num>, suffix: string)
    requires multiset(xs) == multiset(ys) && ShowsByValue(xs)
    ensures FormatRange(xs, suffix) == FormatRange(ys, suffix)
  {
    if xs != [] {
      SameExtremes(xs, ys);
    } else {
      assert |ys| == |multiset(ys)| == 0;
    }
  }

  /** Python's `min` keeps the first of equal values, so `[1, 1.0]` and `[1.0, 1]` print differently. */
  lemma RangeMixedExample()
    ensures FormatRange([Int(1), Float(1.0, "1.0")], "") == "1"
    ensures FormatRange([Float(1.0, "1.0"), Int(1)], "") == "1.0"
  {
  }
}
