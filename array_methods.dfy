/** Optional values: the model's rendering of a TypeScript `T | undefined`. */
module Options {
  datatype Option<+T> = None | Some(value: T)
}

/**
 * The two `Array.prototype` methods the interaction store is built on,
 * `find` and `filter`, as functions on sequences, each with the contract
 * that the JavaScript specification gives it.
 */
module ArrayMethods {
  import opened Options

  /** `r` is `s` with some elements dropped and the rest kept in order. */
  ghost predicate IsSubsequence<T>(r: seq<T>, s: seq<T>)
    decreases |s|
  {
    r == [] || (s != [] && ((r[0] == s[0] && IsSubsequence(r[1..], s[1..])) || IsSubsequence(r, s[1..])))
  }

  /** Dropping elements twice is dropping elements once. */
  lemma {:induction false} SubsequenceTrans<T>(a: seq<T>, b: seq<T>, c: seq<T>)
    requires IsSubsequence(a, b) && IsSubsequence(b, c)
    ensures IsSubsequence(a, c)
    decreases |c|
  {
    if a != [] {
      if b[0] == c[0] && IsSubsequence(b[1..], c[1..]) {
        if a[0] == b[0] && IsSubsequence(a[1..], b[1..]) {
          SubsequenceTrans(a[1..], b[1..], c[1..]);
        } else {
          SubsequenceTrans(a, b[1..], c[1..]);
        }
      } else {
        SubsequenceTrans(a, b, c[1..]);
      }
    }
  }

  /** `s.find(p)`: the first element of `s` that satisfies `p`, or nothing. */
  function Find<T>(s: seq<T>, p: T -> bool): Option<T>
  {
    if s == [] then None
    else if p(s[0]) then Some(s[0])
    else Find(s[1..], p)
  }

  /** `find` answers nothing exactly when no element satisfies `p`, and otherwise the first one that does. */
  lemma {:induction false} FindSpec<T>(s: seq<T>, p: T -> bool)
    ensures Find(s, p).None? <==> forall i :: 0 <= i < |s| ==> !p(s[i])
    ensures Find(s, p).Some? ==>
              exists i :: 0 <= i < |s| && s[i] == Find(s, p).value && p(s[i]) && forall j :: 0 <= j < i ==> !p(s[j])
  {
    if s != [] && !p(s[0]) {
      FindSpec(s[1..], p);
      var r := Find(s[1..], p);
      if r.Some? {
        var i :| 0 <= i < |s[1..]| && s[1..][i] == r.value && p(s[1..][i]) && forall j :: 0 <= j < i ==> !p(s[1..][j]);
        assert s[i + 1] == r.value;
        forall j | 0 <= j < i + 1 ensures !p(s[j]) {
          if j > 0 { assert s[j] == s[1..][j - 1]; }
        }
      } else {
        forall j | 0 <= j < |s| ensures !p(s[j]) {
          if j > 0 { assert s[j] == s[1..][j - 1]; }
        }
      }
    }
  }

  /** `s.filter(keep)`: the elements of `s` that satisfy `keep`. */
  function Filter<T>(s: seq<T>, keep: T -> bool): (r: seq<T>)
    ensures |r| <= |s|
    ensures forall i :: 0 <= i < |r| ==> keep(r[i])
  {
    if s == [] then []
    else if keep(s[0]) then [s[0]] + Filter(s[1..], keep)
    else Filter(s[1..], keep)
  }

  /** `filter` keeps each element that satisfies `keep` as often as it occurs, and no other. */
  lemma {:induction false} FilterCounts<T(!new)>(s: seq<T>, keep: T -> bool)
    ensures forall x :: multiset(Filter(s, keep))[x] == if keep(x) then multiset(s)[x] else 0
  {
    if s != [] {
      FilterCounts(s[1..], keep);
      assert s == [s[0]] + s[1..];
    }
  }

  /** `filter` keeps the order of what it keeps. */
  lemma {:induction false} FilterKeepsOrder<T>(s: seq<T>, keep: T -> bool)
    ensures IsSubsequence(Filter(s, keep), s)
  {
    if s != [] {
      FilterKeepsOrder(s[1..], keep);
    }
  }

  /** Filtering a sequence with one more element at its end. */
  lemma {:induction false} FilterSnoc<T>(s: seq<T>, x: T, keep: T -> bool)
    ensures Filter(s + [x], keep) == Filter(s, keep) + (if keep(x) then [x] else [])
  {
    if s == [] {
      assert s + [x] == [x];
    } else {
      assert s + [x] == [s[0]] + (s[1..] + [x]);
      FilterSnoc(s[1..], x, keep);
    }
  }

  /** Finding in a sequence with one more element at its end: an earlier match wins. */
  lemma {:induction false} FindSnoc<T>(s: seq<T>, x: T, p: T -> bool)
    ensures Find(s + [x], p) == if Find(s, p).Some? then Find(s, p) else if p(x) then Some(x) else None
  {
    if s == [] {
      assert s + [x] == [x];
    } else {
      assert s + [x] == [s[0]] + (s[1..] + [x]);
      FindSnoc(s[1..], x, p);
    }
  }
}
