/** The handful of Python string operations the audit scripts rely on:
    `strip`, `upper`/`lower`, `in`, `startswith`, and splitting at the first
    occurrence of a separator. */
module Text {

  /** The characters Python's `str.isspace()` accepts: TAB to CR, the four
      ASCII separators FS to US, space, NEL, NO-BREAK SPACE and the Unicode
      space separators. `str.strip()` without arguments removes exactly these
      from both ends. */
  predicate IsSpace(c: char) {
    || '\t' <= c <= '\r'
    || '\U{1C}' <= c <= ' '
    || c == '\U{85}' || c == '\U{A0}' || c == '\U{1680}'
    || '\U{2000}' <= c <= '\U{200A}'
    || c == '\U{2028}' || c == '\U{2029}' || c == '\U{202F}' || c == '\U{205F}'
    || c == '\U{3000}'
  }

  predicate AllSpace(s: string) {
    forall i :: 0 <= i < |s| ==> IsSpace(s[i])
  }

  /** `s.lstrip()`: the suffix left after dropping leading whitespace. */
  function TrimStart(s: string): (r: string)
    ensures |r| <= |s| && r == s[|s| - |r|..]
    ensures AllSpace(s[..|s| - |r|])
    ensures r == [] || !IsSpace(r[0])
  {
    if s != [] && IsSpace(s[0]) then
      var rest := s[1..];
      var r := TrimStart(rest);
      assert s[..|s| - |r|] == [s[0]] + rest[..|rest| - |r|];
      r
    else s
  }

  /** `s.rstrip()`: the prefix left after dropping trailing whitespace. */
  function TrimEnd(s: string): (r: string)
    ensures |r| <= |s| && r == s[..|r|]
    ensures AllSpace(s[|r|..])
    ensures r == [] || !IsSpace(r[|r| - 1])
  {
    if s != [] && IsSpace(s[|s| - 1]) then
      var front := s[..|s| - 1];
      var r := TrimEnd(front);
      assert s[|r|..] == front[|r|..] + [s[|s| - 1]];
      r
    else s
  }

  lemma {:induction false} AllSpaceConcat(a: string, b: string)
    ensures AllSpace(a + b) <==> AllSpace(a) && AllSpace(b)
  {
    if AllSpace(a) && AllSpace(b) {
      forall i | 0 <= i < |a + b| ensures IsSpace((a + b)[i]) {
        if i >= |a| { assert (a + b)[i] == b[i - |a|]; }
      }
    }
    if AllSpace(a + b) {
      forall i | 0 <= i < |a| ensures IsSpace(a[i]) {
        assert (a + b)[i] == a[i];
      }
      forall i | 0 <= i < |b| ensures IsSpace(b[i]) {
        assert (a + b)[|a| + i] == b[i];
      }
    }
  }

  /** `s.strip()`: nothing is left exactly when `s` is all whitespace. */
  function Trim(s: string): (r: string)
    ensures |r| <= |s|
    ensures r == [] <==> AllSpace(s)
  {
    var t := TrimStart(s);
    TrimEmptyIffSpace(s, t);
    TrimEnd(t)
  }

  lemma {:induction false} TrimEmptyIffSpace(s: string, t: string)
    requires t == TrimStart(s)
    ensures TrimEnd(t) == [] <==> AllSpace(s)
  {
    var k := |s| - |t|;
    var lead := s[..k];
    assert s == lead + t;
    AllSpaceConcat(lead, t);
    var r := TrimEnd(t);
    if r == [] {
      assert t[|r|..] == t;
      assert AllSpace(t);
    }
    if AllSpace(s) {
      assert AllSpace(t);
    }
  }

  /** What `strip` leaves neither starts nor ends with whitespace. */
  lemma TrimEnds(s: string)
    ensures Trim(s) != [] ==> !IsSpace(Trim(s)[0]) && !IsSpace(Trim(s)[|Trim(s)| - 1])
  {
    var t := TrimStart(s);
    var r := TrimEnd(t);
    if r != [] {
      assert r[0] == t[0];
    }
  }

  /** Stripping removes only whitespace: whatever core is surrounded by
      whitespace, and neither starts nor ends with whitespace, is what
      `strip` gives back. */
  lemma {:induction false} TrimSurrounded(pre: string, core: string, post: string)
    requires AllSpace(pre) && AllSpace(post)
    requires core == [] || (!IsSpace(core[0]) && !IsSpace(core[|core| - 1]))
    ensures Trim(pre + core + post) == core
  {
    var rest := core + post;
    assert pre + core + post == pre + rest;
    if core == [] {
      assert rest == post;
    }
    TrimStartSkips(pre, rest);
    var t := TrimStart(rest);
    if core == [] {
      TrimStartSkips(post, []);
      assert post + [] == post;
      assert t == [];
    } else {
      assert t == rest;
    }
    TrimEndSkips(core, post);
  }

  lemma {:induction false} TrimStartSkips(pre: string, rest: string)
    requires AllSpace(pre)
    requires rest == [] || !IsSpace(rest[0]) || AllSpace(rest)
    ensures TrimStart(pre + rest) == TrimStart(rest)
  {
    if pre != [] {
      assert (pre + rest)[1..] == pre[1..] + rest;
      TrimStartSkips(pre[1..], rest);
    }
  }

  lemma {:induction false} TrimEndSkips(rest: string, post: string)
    requires AllSpace(post)
    requires rest == [] || !IsSpace(rest[|rest| - 1])
    ensures TrimEnd(rest + post) == rest
  {
    if post == [] {
      assert rest + post == rest;
    } else {
      assert (rest + post)[..|rest + post| - 1] == rest + post[..|post| - 1];
      TrimEndSkips(rest, post[..|post| - 1]);
    }
  }

  /** `s.startswith(prefix)`: `s` begins with all of `prefix`. */
  predicate StartsWith(s: string, prefix: string) {
    |prefix| <= |s| && s[..|prefix|] == prefix
  }

  /** `s` starts with `prefix` exactly when it is `prefix` followed by
      something. */
  lemma StartsWithJoin(s: string, prefix: string)
    ensures StartsWith(s, prefix) <==> exists rest :: s == prefix + rest
  {
    if StartsWith(s, prefix) {
      assert s == prefix + s[|prefix|..];
    }
    if exists rest :: s == prefix + rest {
      var rest :| s == prefix + rest;
      assert s[..|prefix|] == prefix;
    }
  }

  /** Python's substring test `sub in s`. */
  predicate Contains(s: string, sub: string) {
    StartsWith(s, sub) || (s != [] && Contains(s[1..], sub))
  }

  /** A string can only contain one no longer than itself. */
  lemma {:induction false} ContainsNoLonger(s: string, sub: string)
    requires Contains(s, sub)
    ensures |sub| <= |s|
  {
    if !StartsWith(s, sub) {
      ContainsNoLonger(s[1..], sub);
    }
  }

  /** `sub` occurs in `s` starting at position `k`. */
  predicate OccursAt(s: string, sub: string, k: nat) {
    k + |sub| <= |s| && s[k..k + |sub|] == sub
  }

  /** `sub in s` holds exactly when `sub` occurs at some position of `s`. */
  lemma ContainsAt(s: string, sub: string)
    ensures Contains(s, sub) <==> exists k: nat :: OccursAt(s, sub, k)
  {
    if Contains(s, sub) {
      var k := OccurrenceOf(s, sub);
    }
    if exists k: nat :: OccursAt(s, sub, k) {
      var k: nat :| OccursAt(s, sub, k);
      OccurrenceContained(s, sub, k);
    }
  }

  lemma {:induction false} OccurrenceContained(s: string, sub: string, k: nat)
    requires OccursAt(s, sub, k)
    ensures Contains(s, sub)
  {
    if k > 0 {
      assert s[1..][k - 1..k - 1 + |sub|] == s[k..k + |sub|];
      OccurrenceContained(s[1..], sub, k - 1);
    }
  }

  lemma {:induction false} OccurrenceOf(s: string, sub: string) returns (k: nat)
    requires Contains(s, sub)
    ensures OccursAt(s, sub, k)
  {
    if StartsWith(s, sub) {
      k := 0;
    } else {
      var j := OccurrenceOf(s[1..], sub);
      k := j + 1;
      assert s[1..][j..j + |sub|] == s[k..k + |sub|];
    }
  }

  /** A text lacking the first character of `sub` does not contain it. */
  lemma {:induction false} MissingFirstNotContained(s: string, sub: string)
    requires sub != [] && sub[0] !in s
    ensures !Contains(s, sub)
  {
    if s != [] {
      assert s[0] in s;
      assert s[1..] == s[1..|s|];
      MissingFirstNotContained(s[1..], sub);
    }
  }

  function UpperChar(c: char): char {
    if 'a' <= c <= 'z' then (c as int - 32) as char else c
  }

  function LowerChar(c: char): char {
    if 'A' <= c <= 'Z' then (c as int + 32) as char else c
  }

  /** `s.upper()` over ASCII letters. */
  function Upper(s: string): (r: string)
    ensures |r| == |s|
    ensures forall i :: 0 <= i < |s| ==> r[i] == UpperChar(s[i])
  {
    seq(|s|, i requires 0 <= i < |s| => UpperChar(s[i]))
  }

  /** `s.lower()` over ASCII letters. */
  function Lower(s: string): (r: string)
    ensures |r| == |s|
    ensures forall i :: 0 <= i < |s| ==> r[i] == LowerChar(s[i])
  {
    seq(|s|, i requires 0 <= i < |s| => LowerChar(s[i]))
  }

  /** Upper-casing leaves no lower-case letter and keeps every character
      that is not one; lower-casing, the same the other way round. */
  lemma CaseMapping(s: string)
    ensures forall i :: 0 <= i < |s| ==> !('a' <= Upper(s)[i] <= 'z')
    ensures forall i :: 0 <= i < |s| && !('a' <= s[i] <= 'z') ==> Upper(s)[i] == s[i]
    ensures forall i :: 0 <= i < |s| ==> !('A' <= Lower(s)[i] <= 'Z')
    ensures forall i :: 0 <= i < |s| && !('A' <= s[i] <= 'Z') ==> Lower(s)[i] == s[i]
  {
  }

  /** Upper-casing forgets the case of the input: a string and its
      lower-cased form upper-case to the same text. */
  lemma UpperForgetsCase(s: string)
    ensures Upper(Lower(s)) == Upper(s)
    ensures Upper(Upper(s)) == Upper(s)
  {
  }

  /** The index of the first occurrence of `c`, as used by
      `s.split(c, 1)`. */
  function FirstIndex(s: string, c: char): (i: nat)
    requires c in s
    ensures i < |s| && s[i] == c
    ensures c !in s[..i]
  {
    if s[0] == c then 0
    else
      var j := FirstIndex(s[1..], c);
      assert s[..j + 1] == [s[0]] + s[1..][..j];
      j + 1
  }

  /** `s.split(sep)[0]`: the text before the first `sep`, or all of `s`. */
  function FirstToken(s: string, sep: char): (r: string)
    ensures StartsWith(s, r)
    ensures sep !in r
    ensures |r| < |s| ==> s[|r|] == sep
  {
    if sep in s then s[..FirstIndex(s, sep)] else s
  }

  /** The first `c` after a run free of `c` is the one ending the run. */
  lemma {:induction false} FirstIndexAfter(a: string, c: char, b: string)
    requires c !in a
    ensures c in a + [c] + b && FirstIndex(a + [c] + b, c) == |a|
  {
    var s := a + [c] + b;
    assert s[|a|] == c;
    if a != [] {
      assert a[0] in a;
      assert s[1..] == a[1..] + [c] + b;
      FirstIndexAfter(a[1..], c, b);
    }
  }

  /** `(a + sep + b).split(sep)[0]` is `a` when `a` holds no `sep`. */
  lemma FirstTokenOf(a: string, sep: char, b: string)
    requires sep !in a
    ensures FirstToken(a + [sep] + b, sep) == a
  {
    FirstIndexAfter(a, sep, b);
    assert (a + [sep] + b)[..|a|] == a;
  }

  /** `s.split(sep, 1)` for a text holding `sep`: the text before its first
      `sep` and the text after it, which put back together around `sep` give
      `s` again. */
  function SplitOnce(s: string, sep: char): (parts: (string, string))
    requires sep in s
    ensures parts.0 + [sep] + parts.1 == s
    ensures sep !in parts.0
  {
    var i := FirstIndex(s, sep);
    assert s == s[..i] + [sep] + s[i + 1..];
    (s[..i], s[i + 1..])
  }

  /** Splitting undoes joining at a separator the first part lacks. */
  lemma SplitOnceOfJoin(a: string, sep: char, b: string)
    requires sep !in a
    ensures sep in a + [sep] + b && SplitOnce(a + [sep] + b, sep) == (a, b)
  {
    var s := a + [sep] + b;
    FirstIndexAfter(a, sep, b);
    assert s[..|a|] == a && s[|a| + 1..] == b;
  }
}
