/**
 * The few string operations of Python that the core relies on, over `seq<char>`.
 * Case conversion and `re.IGNORECASE` are modelled for ASCII letters only.
 */
module Text {

  predicate IsDigit(c: char) { '0' <= c <= '9' }

  predicate IsUpper(c: char) { 'A' <= c <= 'Z' }

  /** The class `[a-z0-9]` under `re.IGNORECASE`. */
  predicate IsAlnum(c: char) { IsDigit(c) || 'a' <= c <= 'z' || IsUpper(c) }

  predicate AllAlnum(s: string) { forall i :: 0 <= i < |s| ==> IsAlnum(s[i]) }

  /** The characters for which Python's `str.isspace` holds (also what `\s` matches). */
  predicate IsSpace(c: char)
  {
    c == ' ' || '\t' <= c <= '\r' || '\U{1C}' <= c <= '\U{1F}' || c == '\U{85}' || c == '\U{A0}'
    || c == '\U{1680}' || '\U{2000}' <= c <= '\U{200A}' || c == '\U{2028}' || c == '\U{2029}'
    || c == '\U{202F}' || c == '\U{205F}' || c == '\U{3000}'
  }

  function LowerChar(c: char): (r: char)
    ensures !IsUpper(r)
    ensures IsUpper(c) || r == c
  {
    if IsUpper(c) then (c as int + 32) as char else c
  }

  /** `str.lower()` */
  function Lower(s: string): (r: string)
    ensures |r| == |s|
    ensures forall i :: 0 <= i < |s| ==> r[i] == LowerChar(s[i])
  {
    if s == [] then [] else [LowerChar(s[0])] + Lower(s[1..])
  }

  predicate StartsWith(s: string, p: string) { |p| <= |s| && s[..|p|] == p }

  predicate EndsWithStar(s: string) { |s| > 0 && s[|s| - 1] == '*' }

  /** `str.rstrip("*")`: every trailing star is removed. */
  function StripStars(s: string): (r: string)
    ensures StartsWith(s, r) && !EndsWithStar(r)
    ensures forall i :: |r| <= i < |s| ==> s[i] == '*'
  {
    if EndsWithStar(s) then StripStars(s[..|s| - 1]) else s
  }

  function LStrip(s: string): (r: string)
    ensures |r| <= |s| && r == s[|s| - |r|..]
    ensures r == [] || !IsSpace(r[0])
    decreases |s|
  {
    if s != [] && IsSpace(s[0]) then LStrip(s[1..]) else s
  }

  function RStrip(s: string): (r: string)
    ensures StartsWith(s, r)
    ensures r == [] || !IsSpace(r[|r| - 1])
    decreases |s|
  {
    if s != [] && IsSpace(s[|s| - 1]) then RStrip(s[..|s| - 1]) else s
  }

  /** `str.strip()` */
  function Strip(s: string): (r: string)
    ensures |r| <= |s|
    ensures r == [] || (!IsSpace(r[0]) && !IsSpace(r[|r| - 1]))
  {
    RStrip(LStrip(s))
  }

  predicate HasChar(s: string, c: char) { exists i :: 0 <= i < |s| && s[i] == c }

  /** `s.split(c, 1)[0]`, which is also `s.split(c)[0]`: the text before the first `c`. */
  function Before(s: string, c: char): (r: string)
    ensures StartsWith(s, r) && !HasChar(r, c)
    ensures HasChar(s, c) ==> |r| < |s| && s[|r|] == c
    ensures !HasChar(s, c) ==> r == s
  {
    if s == [] || s[0] == c then [] else [s[0]] + Before(s[1..], c)
  }

  /** `s.split(c, 1)[1]`: the text after the first `c`. */
  function After(s: string, c: char): (r: string)
    requires HasChar(s, c)
    ensures s == Before(s, c) + [c] + r
  {
    if s[0] == c then s[1..] else After(s[1..], c)
  }

  /** Splitting `a + [c] + b` at its first `c` gives back `a` and `b` when `a` holds no `c`. */
  lemma {:induction false} BeforeAfterConcat(a: string, c: char, b: string)
    requires !HasChar(a, c)
    ensures HasChar(a + [c] + b, c)
    ensures Before(a + [c] + b, c) == a && After(a + [c] + b, c) == b
  {
    var s := a + [c] + b;
    assert s[|a|] == c;
    if a != [] {
      assert s[1..] == a[1..] + [c] + b;
      assert !HasChar(a[1..], c) by {
        forall i | 0 <= i < |a[1..]| ensures a[1..][i] != c {
          assert a[1..][i] == a[i + 1];
        }
      }
      BeforeAfterConcat(a[1..], c, b);
    }
  }

  /** `str.split(sep)` for one separator character, and `re.split("[...]")` for a class of them. */
  function Split(s: string, seps: set<char>): (r: seq<string>)
    ensures |r| >= 1
    ensures forall i, j :: 0 <= i < |r| && 0 <= j < |r[i]| ==> r[i][j] !in seps
  {
    if s == [] then [""]
    else
      var rest := Split(s[1..], seps);
      if s[0] in seps then [""] + rest else [[s[0]] + rest[0]] + rest[1..]
  }

  /** A text that starts with a non-separator has a non-empty first field. */
  lemma SplitHeadNonEmpty(s: string, seps: set<char>)
    requires s != [] && s[0] !in seps
    ensures Split(s, seps)[0] != [] && Split(s, seps)[0][0] == s[0]
  {
  }

  /** `sep.join(xs)` */
  function Join(xs: seq<string>, sep: string): string
  {
    if xs == [] then "" else if |xs| == 1 then xs[0] else xs[0] + sep + Join(xs[1..], sep)
  }

  /** `sub in s` */
  predicate Contains(s: string, sub: string)
    decreases |s|
  {
    StartsWith(s, sub) || (s != [] && Contains(s[1..], sub))
  }

  /** `w` occurs in `p + w + q`. */
  lemma {:induction false} ContainsMiddle(p: string, w: string, q: string)
    ensures Contains(p + w + q, w)
  {
    if p == [] {
      assert (p + w + q)[..|w|] == w;
    } else {
      assert (p + w + q)[1..] == p[1..] + w + q;
      ContainsMiddle(p[1..], w, q);
    }
  }

  /** A text shorter than `w` does not contain it. */
  lemma {:induction false} ContainsShort(s: string, w: string)
    requires |s| < |w|
    ensures !Contains(s, w)
  {
    if s != [] {
      ContainsShort(s[1..], w);
    }
  }

  /** A text lacking one of the characters of `w` does not contain it. */
  lemma {:induction false} ContainsMissingChar(s: string, w: string, c: char)
    requires HasChar(w, c) && !HasChar(s, c)
    ensures !Contains(s, w)
  {
    if s != [] {
      assert !HasChar(s[1..], c) by {
        forall i | 0 <= i < |s[1..]| ensures s[1..][i] != c { assert s[1..][i] == s[i + 1]; }
      }
      ContainsMissingChar(s[1..], w, c);
      var i :| 0 <= i < |w| && w[i] == c;
      if |w| <= |s| {
        assert s[..|w|][i] == s[i];
      }
    }
  }

  /** Some element of `xs` satisfies `p` exactly when one of its initial part or its last does. */
  lemma ExistsInitLast<T>(p: T -> bool, xs: seq<T>)
    requires xs != []
    ensures (exists x :: x in xs && p(x)) <==> (exists x :: x in xs[..|xs| - 1] && p(x)) || p(xs[|xs| - 1])
  {
    var init, last := xs[..|xs| - 1], xs[|xs| - 1];
    assert xs == init + [last];
    if p(last) {
      assert last in xs;
    }
  }

  lemma StartsWithAt(s: string, p: string, k: nat)
    requires StartsWith(s, p) && k < |s|
    ensures k < |p| ==> p[k] == s[k]
  {
    if k < |p| {
      assert s[..|p|][k] == s[k];
    }
  }

  /** An occurrence of `w` cannot straddle a character `w` does not hold. */
  lemma {:induction false} ContainsSplit(a: string, c: char, b: string, w: string)
    requires !HasChar(w, c)
    ensures Contains(a + [c] + b, w) ==> Contains(a, w) || Contains(b, w)
  {
    var s := a + [c] + b;
    if Contains(s, w) {
      if StartsWith(s, w) {
        StartsWithAt(s, w, |a|);
        assert a[..|w|] == s[..|w|];
      } else if a == [] {
        assert s[1..] == b;
      } else {
        assert s[1..] == a[1..] + [c] + b;
        ContainsSplit(a[1..], c, b, w);
      }
    }
  }


  /** Two pieces each shorter than `w` around a character `w` lacks do not contain `w`. */
  /**
   * `s[q..]` is free of `w` when the character at `p`, fewer than `|w|` places on, is not in
   * `w` and the text after it is free of `w`.
   */
  lemma SplitAt(s: string, q: nat, p: nat, w: string)
    requires q <= p < |s| && p - q < |w| && !HasChar(w, s[p]) && !Contains(s[p + 1..], w)
    ensures !Contains(s[q..], w)
  {
    assert s[q..] == s[q..p] + [s[p]] + s[p + 1..];
    ContainsSplit(s[q..p], s[p], s[p + 1..], w);
    ContainsShort(s[q..p], w);
  }

  /** A text cut at four characters `w` does not hold, into pieces shorter than `w`, is free of `w`. */
  lemma FourCutsFree(s: string, w: string, a: nat, b: nat, c: nat, d: nat)
    requires a < b < c < d < |s| && a < |w| && b - a <= |w| && c - b <= |w| && d - c <= |w| && |s| - d <= |w|
    requires !HasChar(w, s[a]) && !HasChar(w, s[b]) && !HasChar(w, s[c]) && !HasChar(w, s[d])
    ensures !Contains(s, w)
  {
    ContainsShort(s[d + 1..], w);
    SplitAt(s, c + 1, d, w);
    SplitAt(s, b + 1, c, w);
    SplitAt(s, a + 1, b, w);
    SplitAt(s, 0, a, w);
    assert s[0..] == s;
  }

  /** Two texts free of `w`, joined by a run of characters `w` does not hold, are free of `w`. */
  lemma {:induction false} RunSplitFree(a: string, d: string, b: string, w: string)
    requires w != [] && d != [] && !Contains(a, w) && !Contains(b, w)
    requires forall k :: 0 <= k < |d| ==> !HasChar(w, d[k])
    ensures !Contains(a + d + b, w)
    decreases |d|
  {
    assert a + d + b == a + [d[0]] + (d[1..] + b);
    ContainsSplit(a, d[0], d[1..] + b, w);
    if d[1..] == [] {
      assert d[1..] + b == b;
    } else {
      RunSplitFree([], d[1..], b, w);
      assert [] + d[1..] + b == d[1..] + b;
    }
  }

  lemma ShortSidesFree(a: string, c: char, b: string, w: string)
    requires !HasChar(w, c) && |a| < |w| && |b| < |w|
    ensures !Contains(a + [c] + b, w)
  {
    ContainsSplit(a, c, b, w);
    ContainsShort(a, w);
    ContainsShort(b, w);
  }

  lemma {:induction false} SplitHead(s: string, c: char)
    ensures Split(s, {c})[0] == Before(s, c)
  {
    if s != [] && s[0] != c {
      SplitHead(s[1..], c);
    }
  }

  lemma {:induction false} SplitJoin(xs: seq<string>, c: char)
    requires |xs| >= 1
    requires forall i :: 0 <= i < |xs| ==> !HasChar(xs[i], c)
    ensures Split(Join(xs, [c]), {c}) == xs
  {
    if |xs| == 1 {
      SplitOfPlain(xs[0], c);
    } else {
      SplitJoin(xs[1..], c);
      SplitConcat(xs[0], Join(xs[1..], [c]), c);
    }
  }

  lemma {:induction false} SplitOfPlain(s: string, c: char)
    requires !HasChar(s, c)
    ensures Split(s, {c}) == [s]
  {
    if s != [] {
      assert !HasChar(s[1..], c) by {
        forall i | 0 <= i < |s[1..]| ensures s[1..][i] != c { assert s[1..][i] == s[i + 1]; }
      }
      SplitOfPlain(s[1..], c);
      assert [s[0]] + s[1..] == s;
    }
  }

  lemma {:induction false} SplitConcat(a: string, b: string, c: char)
    requires !HasChar(a, c)
    ensures Split(a + [c] + b, {c}) == [a] + Split(b, {c})
  {
    if a == [] {
      assert a + [c] + b == [c] + b;
      assert ([c] + b)[1..] == b;
    } else {
      assert (a + [c] + b)[1..] == a[1..] + [c] + b;
      assert !HasChar(a[1..], c) by {
        forall i | 0 <= i < |a[1..]| ensures a[1..][i] != c { assert a[1..][i] == a[i + 1]; }
      }
      SplitConcat(a[1..], b, c);
      assert [a[0]] + a[1..] == a;
    }
  }

  lemma {:induction false} LowerPrefix(s: string, n: nat)
    requires n <= |s|
    ensures Lower(s)[..n] == Lower(s[..n])
  {
  }

  lemma LowerIdempotent(s: string)
    ensures Lower(Lower(s)) == Lower(s)
  {
  }

  lemma {:induction false} StripStarsAppend(s: string)
    ensures StripStars(s + "*") == StripStars(s)
  {
    assert (s + "*")[..|s|] == s;
  }

  lemma StripPlain(s: string)
    requires s == [] || (!IsSpace(s[0]) && !IsSpace(s[|s| - 1]))
    ensures Strip(s) == s
  {
  }

  /** How `repr` writes one character of a str quoted with `q`. */
  function ReprChar(c: char, q: char): string
  {
    if c == '\\' then "\\\\"
    else if c == q then ['\\', q]
    else if c == '\n' then "\\n"
    else if c == '\r' then "\\r"
    else if c == '\t' then "\\t"
    else [c]
  }

  function ReprBody(s: string, q: char): (r: string)
    ensures |s| <= |r|
  {
    if s == [] then [] else ReprChar(s[0], q) + ReprBody(s[1..], q)
  }

  /** A character `repr` writes as itself inside the quotes `q`. */
  predicate Verbatim(c: char, q: char)
  {
    c != '\\' && c != q && c != '\n' && c != '\r' && c != '\t'
  }

  /** `repr` of a str: double quotes exactly when the text holds a `'` and no `"`. */
  function Repr(s: string): (r: string)
    ensures |r| >= |s| + 2 && r[0] == r[|r| - 1]
    ensures r[0] == '"' <==> HasChar(s, '\'') && !HasChar(s, '"')
    ensures r[0] == '"' || r[0] == '\''
  {
    var q := if HasChar(s, '\'') && !HasChar(s, '"') then '"' else '\'';
    [q] + ReprBody(s, q) + [q]
  }

  /** Characters that need no escape are written as they are. */
  lemma {:induction false} ReprBodyVerbatim(s: string, q: char)
    requires forall i :: 0 <= i < |s| ==> Verbatim(s[i], q)
    ensures ReprBody(s, q) == s
  {
    if s != [] {
      assert Verbatim(s[0], q);
      ReprBodyVerbatim(s[1..], q);
      assert [s[0]] + s[1..] == s;
    }
  }

  /** A text with no quote and nothing to escape is shown between single quotes. */
  lemma ReprPlain(s: string)
    requires forall i :: 0 <= i < |s| ==> Verbatim(s[i], '\'') && s[i] != '"'
    ensures Repr(s) == "'" + s + "'"
  {
    ReprBodyVerbatim(s, '\'');
  }

  /** A text holding a `'` but no `"` is shown between double quotes, its `'` unescaped. */
  lemma ReprApostrophe(s: string)
    requires HasChar(s, '\'') && forall i :: 0 <= i < |s| ==> Verbatim(s[i], '"')
    ensures Repr(s) == "\"" + s + "\""
  {
    ReprBodyVerbatim(s, '"');
  }

  /** `%.200R` keeps at most the first `n` characters of the repr. */
  function Cut(s: string, n: nat): (r: string)
    ensures |r| <= n && StartsWith(s, r)
    ensures |s| <= n ==> r == s
  {
    if |s| <= n then s else s[..n]
  }

  /** Stripping a text padded by one space on each side gives the text back. */
  lemma StripPadded(s: string)
    requires s == [] || (!IsSpace(s[0]) && !IsSpace(s[|s| - 1]))
    ensures Strip(" " + s + " ") == s
  {
    var t := " " + s + " ";
    assert t[0] == ' ' && t[1..] == s + " ";
    assert LStrip(t) == LStrip(s + " ");
    if s == [] {
      assert LStrip(" ") == LStrip(" "[1..]) == [];
    } else {
      assert (s + " ")[0] == s[0];
      assert LStrip(s + " ") == s + " ";
      assert (s + " ")[..|s|] == s;
      assert RStrip(s + " ") == RStrip(s) == s;
    }
  }

  /** A character equal up to case to a letter or digit is itself a letter or digit. */
  lemma AlnumCaseEq(c: char, d: char)
    requires LowerChar(c) == LowerChar(d) && IsAlnum(d)
    ensures IsAlnum(c)
  {
  }

  lemma StartsWithTransitive(a: string, b: string, c: string)
    requires StartsWith(a, b) && StartsWith(b, c)
    ensures StartsWith(a, c)
  {
    assert a[..|c|] == a[..|b|][..|c|];
  }
}
