/** Order-preserving selection and projection over sequences: the list
    comprehensions `[x for x in s if p(x)]` and `[f(x) for x in s]`. */
module Seqs {

  /** The elements of `s` that satisfy `p`, in their original order. */
  function Filter<T>(s: seq<T>, p: T -> bool): (r: seq<T>)
    ensures |r| <= |s|
    ensures forall i :: 0 <= i < |r| ==> r[i] in s && p(r[i])
    ensures forall i :: 0 <= i < |s| && p(s[i]) ==> s[i] in r
  {
    if s == [] then []
    else
      var r := Filter(s[..|s| - 1], p);
      assert s == s[..|s| - 1] + [s[|s| - 1]];
      if p(s[|s| - 1]) then r + [s[|s| - 1]] else r
  }

  /** `f` applied to every element of `s`. */
  function Map<T, U>(s: seq<T>, f: T -> U): (r: seq<U>)
    ensures |r| == |s|
    ensures forall i :: 0 <= i < |s| ==> r[i] == f(s[i])
  {
    seq(|s|, i requires 0 <= i < |s| => f(s[i]))
  }

  /** `Filter` keeps elements in order: the result is `s` read at strictly
      increasing positions, and every position whose element satisfies `p`
      is one of them. */
  lemma {:induction false} FilterSelects<T>(s: seq<T>, p: T -> bool) returns (idx: seq<nat>)
    ensures |idx| == |Filter(s, p)|
    ensures forall i :: 0 <= i < |idx| ==> idx[i] < |s| && Filter(s, p)[i] == s[idx[i]]
    ensures forall i, j :: 0 <= i < j < |idx| ==> idx[i] < idx[j]
    ensures forall k :: 0 <= k < |s| && p(s[k]) ==> k in idx
  {
    if s == [] {
      idx := [];
    } else {
      var n := |s| - 1;
      var prev := FilterSelects(s[..n], p);
      idx := if p(s[n]) then prev + [n] else prev;
      SelectsStep(s, p, prev, idx);
      SelectsAll(s, p, prev, idx);
    }
  }

  lemma SelectsStep<T>(s: seq<T>, p: T -> bool, prev: seq<nat>, idx: seq<nat>)
    requires s != []
    requires var front := s[..|s| - 1];
             && |prev| == |Filter(front, p)|
             && (forall i :: 0 <= i < |prev| ==> prev[i] < |front| && Filter(front, p)[i] == front[prev[i]])
             && (forall i, j :: 0 <= i < j < |prev| ==> prev[i] < prev[j])
    requires idx == if p(s[|s| - 1]) then prev + [|s| - 1] else prev
    ensures |idx| == |Filter(s, p)|
    ensures forall i :: 0 <= i < |idx| ==> idx[i] < |s| && Filter(s, p)[i] == s[idx[i]]
    ensures forall i, j :: 0 <= i < j < |idx| ==> idx[i] < idx[j]
  {
    var n := |s| - 1;
    var front := s[..n];
    var kept := Filter(front, p);
    var r := Filter(s, p);
    assert r == if p(s[n]) then kept + [s[n]] else kept;
    forall i | 0 <= i < |idx| ensures idx[i] < |s| && r[i] == s[idx[i]] {
      if i < |prev| {
        assert r[i] == kept[i];
        assert front[prev[i]] == s[prev[i]];
      }
    }
  }

  lemma SelectsAll<T>(s: seq<T>, p: T -> bool, prev: seq<nat>, idx: seq<nat>)
    requires s != []
    requires var front := s[..|s| - 1];
             forall k :: 0 <= k < |front| && p(front[k]) ==> k in prev
    requires idx == if p(s[|s| - 1]) then prev + [|s| - 1] else prev
    ensures forall k :: 0 <= k < |s| && p(s[k]) ==> k in idx
  {
    var n := |s| - 1;
    var front := s[..n];
    forall k | 0 <= k < |s| && p(s[k]) ensures k in idx {
      if k < n {
        assert p(front[k]);
        var j :| 0 <= j < |prev| && prev[j] == k;
        assert idx[j] == k;
      } else {
        assert idx[|prev|] == k;
      }
    }
  }

  /** Filtering distributes over concatenation. */
  lemma FilterAppend<T>(s: seq<T>, t: seq<T>, p: T -> bool)
    ensures Filter(s + t, p) == Filter(s, p) + Filter(t, p)
    decreases |t|
  {
    if t != [] {
      var n := |t| - 1;
      assert (s + t)[..|s + t| - 1] == s + t[..n];
      FilterAppend(s, t[..n], p);
    } else {
      assert s + t == s;
    }
  }

  /** One more element is kept exactly when it satisfies `p`. */
  lemma FilterSnoc<T>(s: seq<T>, x: T, p: T -> bool)
    ensures Filter(s + [x], p) == if p(x) then Filter(s, p) + [x] else Filter(s, p)
  {
    assert (s + [x])[..|s|] == s;
  }

  /** Selecting and then projecting one more element adds its image
      exactly when it is selected. */
  lemma MapFilterSnoc<T, U>(s: seq<T>, x: T, p: T -> bool, f: T -> U)
    ensures Map(Filter(s + [x], p), f) == Map(Filter(s, p), f) + (if p(x) then [f(x)] else [])
  {
    FilterSnoc(s, x, p);
    var r := Filter(s, p);
    if p(x) {
      MapSnoc(r, x, f);
    } else {
      assert Map(r, f) + [] == Map(r, f);
    }
  }

  /** Projecting one more element appends its image. */
  lemma MapSnoc<T, U>(r: seq<T>, x: T, f: T -> U)
    ensures Map(r + [x], f) == Map(r, f) + [f(x)]
  {
  }

  lemma MapAppend<T, U>(s: seq<T>, t: seq<T>, f: T -> U)
    ensures Map(s + t, f) == Map(s, f) + Map(t, f)
  {
  }

  /** Of two elements, where only the second passes, only the second is
      kept. */
  lemma FilterSecondOfTwo<T>(a: T, b: T, p: T -> bool)
    requires !p(a) && p(b)
    ensures Filter([a, b], p) == [b]
  {
    FilterSnoc([a], b, p);
    FilterSnoc([], a, p);
    assert [] + [a] == [a] && [a] + [b] == [a, b];
  }
}
