/** Sequence operations shared by the server (vote lists, the store's id
    order) and the client (tag lists): the `filter((x) => x !== v)` idiom, duplicate-freedom and the
    "append unless present" idiom. */
module Seqs {

  /** `s.filter((x) => x !== v)`: every occurrence of `v` removed, the rest kept in order. */
  function Without<T(==,!new)>(s: seq<T>, v: T): (r: seq<T>)
    ensures forall x :: x in r <==> x in s && x != v
    ensures |r| <= |s|
    ensures v in s ==> |r| < |s|
  {
    if s == [] then []
    else (if s[0] == v then [] else [s[0]]) + Without(s[1..], v)
  }

  /** Filtering out a value that does not occur changes nothing. */
  lemma {:induction false} WithoutAbsent<T(!new)>(s: seq<T>, v: T)
    requires v !in s
    ensures Without(s, v) == s
  {
    if s != [] {
      WithoutAbsent(s[1..], v);
    }
  }

  /** Filtering distributes over concatenation: the elements that are kept keep
      their relative order. */
  lemma {:induction false} WithoutConcat<T(!new)>(a: seq<T>, b: seq<T>, v: T)
    ensures Without(a + b, v) == Without(a, v) + Without(b, v)
  {
    if a == [] {
      assert a + b == b;
    } else {
      var head := if a[0] == v then [] else [a[0]];
      assert (a + b)[0] == a[0] && (a + b)[1..] == a[1..] + b;
      assert Without(a + b, v) == head + Without(a[1..] + b, v);
      WithoutConcat(a[1..], b, v);
      assert head + (Without(a[1..], v) + Without(b, v)) == (head + Without(a[1..], v)) + Without(b, v);
    }
  }

  /** Appending `v` and then filtering it out gives the filtered original. */
  lemma WithoutAppended<T(!new)>(s: seq<T>, v: T)
    ensures Without(s + [v], v) == Without(s, v)
  {
    WithoutConcat(s, [v], v);
    assert Without([v], v) == [];
  }

  /** Appending another value commutes with filtering `v`. */
  lemma WithoutAppendOther<T(!new)>(s: seq<T>, x: T, v: T)
    requires x != v
    ensures Without(s + [x], v) == Without(s, v) + [x]
  {
    WithoutConcat(s, [x], v);
    assert Without([x], v) == [x];
  }

  /** Filtering twice by the same value is filtering once. */
  lemma WithoutIdempotent<T(!new)>(s: seq<T>, v: T)
    ensures Without(Without(s, v), v) == Without(s, v)
  {
    WithoutAbsent(Without(s, v), v);
  }

  /** Filtering by two values in either order gives the same sequence. */
  lemma {:induction false} WithoutCommutes<T(!new)>(s: seq<T>, v: T, w: T)
    ensures Without(Without(s, v), w) == Without(Without(s, w), v)
  {
    if s != [] {
      WithoutConcat(if s[0] == v then [] else [s[0]], Without(s[1..], v), w);
      WithoutConcat(if s[0] == w then [] else [s[0]], Without(s[1..], w), v);
      WithoutCommutes(s[1..], v, w);
    }
  }

  /** No value occurs twice. */
  predicate NoDup<T(==)>(s: seq<T>) {
    forall i, j :: 0 <= i < j < |s| ==> s[i] != s[j]
  }

  /** Filtering keeps a duplicate-free sequence duplicate-free. */
  lemma {:induction false} WithoutNoDup<T(!new)>(s: seq<T>, v: T)
    requires NoDup(s)
    ensures NoDup(Without(s, v))
  {
    if s != [] {
      assert NoDup(s[1..]) by {
        forall i, j | 0 <= i < j < |s[1..]| ensures s[1..][i] != s[1..][j] {
          assert s[1..][i] == s[i + 1] && s[1..][j] == s[j + 1];
        }
      }
      WithoutNoDup(s[1..], v);
      var rest := Without(s[1..], v);
      if s[0] != v {
        assert s[0] !in s[1..] by {
          forall k | 0 <= k < |s[1..]| ensures s[1..][k] != s[0] {
            assert s[1..][k] == s[k + 1];
          }
        }
        var r := [s[0]] + rest;
        assert Without(s, v) == r;
        forall i, j | 0 <= i < j < |r| ensures r[i] != r[j] {
          assert r[j] == rest[j - 1];
          if i > 0 {
            assert r[i] == rest[i - 1];
          }
        }
      }
    }
  }

  /** In a duplicate-free sequence, filtering out a present value removes
      exactly one element. */
  lemma {:induction false} WithoutRemovesOne<T(!new)>(s: seq<T>, v: T)
    requires NoDup(s) && v in s
    ensures |Without(s, v)| == |s| - 1
  {
    if s[0] == v {
      assert v !in s[1..] by {
        forall k | 0 <= k < |s[1..]| ensures s[1..][k] != v {
          assert s[1..][k] == s[k + 1];
        }
      }
      WithoutAbsent(s[1..], v);
    } else {
      assert NoDup(s[1..]) by {
        forall i, j | 0 <= i < j < |s[1..]| ensures s[1..][i] != s[1..][j] {
          assert s[1..][i] == s[i + 1] && s[1..][j] == s[j + 1];
        }
      }
      WithoutRemovesOne(s[1..], v);
    }
  }

  /** `includes(v) ? s : [...s, v]`: append `v` unless it is already present. */
  function WithTag<T(==,!new)>(s: seq<T>, v: T): (r: seq<T>)
    ensures v in r
    ensures |s| <= |r| <= |s| + 1
    ensures r[..|s|] == s
    ensures forall x :: x in r <==> x in s || x == v
    ensures NoDup(s) ==> NoDup(r)
  {
    if v in s then s else s + [v]
  }

  /** Adding an absent value and then removing it gives back the sequence,
      provided it held no copy of that value to begin with. */
  lemma WithTagThenWithout<T(!new)>(s: seq<T>, v: T)
    requires v !in s
    ensures Without(WithTag(s, v), v) == s
  {
    WithoutAppended(s, v);
    WithoutAbsent(s, v);
  }
}
