/** Shared vocabulary: optional values, the smaller of two numbers, and the row filter behind every query. */
module Prelude {
  datatype Option<+T> = None | Some(value: T)

  lemma Regroup<T>(a: seq<T>, b: seq<T>, c: seq<T>)
    ensures a + (b + c) == a + b + c
  {
  }

  function Min(a: int, b: int): int { if a < b then a else b }

  /** The rows of `s` that satisfy `keep`, in order (a WHERE clause, or what a DELETE leaves). */
  function Filter<T>(s: seq<T>, keep: T -> bool): seq<T> {
    if s == [] then []
    else Filter(s[..|s| - 1], keep) + (if keep(s[|s| - 1]) then [s[|s| - 1]] else [])
  }

  lemma FilterAppend<T>(s: seq<T>, x: T, keep: T -> bool)
    ensures Filter(s + [x], keep) == Filter(s, keep) + (if keep(x) then [x] else [])
  {
    assert (s + [x])[..|s|] == s;
  }

  lemma {:induction false} FilterConcat<T>(a: seq<T>, b: seq<T>, keep: T -> bool)
    ensures Filter(a + b, keep) == Filter(a, keep) + Filter(b, keep)
  {
    if b == [] {
      assert a + b == a;
    } else {
      var init, last := b[..|b| - 1], b[|b| - 1];
      assert a + b == (a + init) + [last];
      FilterAppend(a + init, last, keep);
      FilterConcat(a, init, keep);
    }
  }

  lemma {:induction false} FilterElements<T>(s: seq<T>, keep: T -> bool)
    ensures forall x :: x in Filter(s, keep) <==> x in s && keep(x)
  {
    if s == [] {
    } else {
      FilterElements(s[..|s| - 1], keep);
      assert s == s[..|s| - 1] + [s[|s| - 1]];
    }
  }

  lemma {:induction false} FilterAll<T>(s: seq<T>, keep: T -> bool)
    requires forall x :: x in s ==> keep(x)
    ensures Filter(s, keep) == s
  {
    if s == [] {
    } else {
      FilterAll(s[..|s| - 1], keep);
      assert s == s[..|s| - 1] + [s[|s| - 1]];
    }
  }

  lemma {:induction false} FilterNone<T>(s: seq<T>, keep: T -> bool)
    requires forall x :: x in s ==> !keep(x)
    ensures Filter(s, keep) == []
  {
    if s == [] {
    } else {
      FilterNone(s[..|s| - 1], keep);
    }
  }

  lemma {:induction false} FilterCommutes<T>(s: seq<T>, f: T -> bool, g: T -> bool)
    ensures Filter(Filter(s, f), g) == Filter(Filter(s, g), f)
  {
    if s == [] {
    } else {
      var init, last := s[..|s| - 1], s[|s| - 1];
      FilterCommutes(init, f, g);
      FilterAppend(Filter(init, f), last, g);
      FilterAppend(Filter(init, g), last, f);
      assert Filter(s, f) == Filter(init, f) + (if f(last) then [last] else []);
      assert !f(last) ==> Filter(s, f) == Filter(init, f);
      assert !g(last) ==> Filter(s, g) == Filter(init, g);
    }
  }

  /** Where the `i`-th row that stays was, and the `j`-th behind it. */
  lemma {:induction false} FilterSources<T>(s: seq<T>, keep: T -> bool, i: nat, j: nat) returns (a: nat, b: nat)
    requires i < j < |Filter(s, keep)|
    ensures a < b < |s| && s[a] == Filter(s, keep)[i] && s[b] == Filter(s, keep)[j]
  {
    var init := s[..|s| - 1];
    if j < |Filter(init, keep)| {
      a, b := FilterSources(init, keep, i, j);
    } else {
      a := FilterSource(init, keep, i);
      b := |s| - 1;
    }
  }

  lemma {:induction false} FilterSource<T>(s: seq<T>, keep: T -> bool, i: nat) returns (a: nat)
    requires i < |Filter(s, keep)|
    ensures a < |s| && s[a] == Filter(s, keep)[i]
  {
    var init := s[..|s| - 1];
    if i < |Filter(init, keep)| {
      a := FilterSource(init, keep, i);
    } else {
      a := |s| - 1;
    }
  }

  /** What holds between any two rows, in their order, still holds between those that stay. */
  lemma FilterKeepsOrder<T>(s: seq<T>, keep: T -> bool, before: (T, T) -> bool)
    requires forall i, j :: 0 <= i < j < |s| ==> before(s[i], s[j])
    ensures forall i, j :: 0 <= i < j < |Filter(s, keep)| ==> before(Filter(s, keep)[i], Filter(s, keep)[j])
  {
    var f := Filter(s, keep);
    forall i, j | 0 <= i < j < |f| ensures before(f[i], f[j]) {
      var a, b := FilterSources(s, keep, i, j);
    }
  }

  /** A condition and its opposite share the rows out. */
  lemma {:induction false} FilterSplits<T>(s: seq<T>, f: T -> bool, g: T -> bool)
    requires forall i :: 0 <= i < |s| ==> (f(s[i]) <==> !g(s[i]))
    ensures |Filter(s, f)| + |Filter(s, g)| == |s|
  {
    if s == [] {
    } else {
      FilterSplits(s[..|s| - 1], f, g);
    }
  }
}
