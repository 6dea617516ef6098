/** Small shared vocabulary: optional values, Dash's "no update", sequence filtering
    and order-preserving de-duplication. */
module Base {

  datatype Option<T> = None | Some(value: T)

  datatype Result<T, E> = Ok(value: T) | Err(error: E)

  /** A Dash callback output: either left as it is (`no_update`) or given a new value. */
  datatype Update<T> = NoUpdate | NewValue(value: T)

  /** A page input that holds a value other than the empty text. */
  predicate Filled(v: Option<string>) {
    v.Some? && v.value != ""
  }

  /** The elements of `s` that satisfy `keep`, in their original order. */
  function Filter<T>(s: seq<T>, keep: T -> bool): (r: seq<T>)
    ensures |r| <= |s|
    ensures forall i :: 0 <= i < |r| ==> keep(r[i])
  {
    if s == [] then []
    else (if keep(s[0]) then [s[0]] else []) + Filter(s[1..], keep)
  }

  lemma {:induction false} FilterMembers<T>(s: seq<T>, keep: T -> bool)
    ensures forall x :: x in Filter(s, keep) ==> x in s && keep(x)
    ensures forall x :: x in s && keep(x) ==> x in Filter(s, keep)
  {
    if s != [] {
      FilterMembers(s[1..], keep);
      assert s == [s[0]] + s[1..];
    }
  }

  /** Filtering twice is filtering once when the second test implies the first. */
  lemma {:induction false} FilterFilter<T>(s: seq<T>, first: T -> bool, second: T -> bool)
    requires forall x :: second(x) ==> first(x)
    ensures Filter(Filter(s, first), second) == Filter(s, second)
  {
    if s != [] {
      FilterFilter(s[1..], first, second);
      var t := Filter(s, first);
      if first(s[0]) {
        assert t == [s[0]] + Filter(s[1..], first);
        assert t[0] == s[0] && t[1..] == Filter(s[1..], first);
        assert Filter(t, second) == (if second(s[0]) then [s[0]] else []) + Filter(t[1..], second);
      } else {
        assert t == Filter(s[1..], first);
      }
    }
  }

  lemma {:induction false} FilterAppend<T>(a: seq<T>, b: seq<T>, keep: T -> bool)
    ensures Filter(a + b, keep) == Filter(a, keep) + Filter(b, keep)
  {
    if a != [] {
      FilterAppend(a[1..], b, keep);
      assert (a + b)[1..] == a[1..] + b;
    } else {
      assert a + b == b;
    }
  }

  /** Filtering out one rejected element between accepted ones leaves the others. */
  lemma FilterDropsOne<T>(before: seq<T>, x: T, after: seq<T>, keep: T -> bool)
    requires forall i :: 0 <= i < |before| ==> keep(before[i])
    requires forall i :: 0 <= i < |after| ==> keep(after[i])
    requires !keep(x)
    ensures Filter(before + [x] + after, keep) == before + after
  {
    var bx := before + [x];
    assert Filter(bx, keep) == before by {
      FilterAll(before, keep);
      FilterAppend(before, [x], keep);
      FilterNone([x], keep);
    }
    assert Filter(after, keep) == after by {
      FilterAll(after, keep);
    }
    FilterAppend(bx, after, keep);
  }

  /** Two tests that agree on every element of `s` select the same elements. */
  lemma {:induction false} FilterSameTest<T>(s: seq<T>, p: T -> bool, q: T -> bool)
    requires forall i :: 0 <= i < |s| ==> p(s[i]) == q(s[i])
    ensures Filter(s, p) == Filter(s, q)
  {
    if s != [] {
      FilterSameTest(s[1..], p, q);
    }
  }

  /** A filter whose test no element passes yields nothing. */
  lemma {:induction false} FilterNone<T>(s: seq<T>, keep: T -> bool)
    requires forall i :: 0 <= i < |s| ==> !keep(s[i])
    ensures Filter(s, keep) == []
  {
    if s != [] {
      FilterNone(s[1..], keep);
    }
  }

  /** A filter whose test every element passes yields the input. */
  lemma {:induction false} FilterAll<T>(s: seq<T>, keep: T -> bool)
    requires forall i :: 0 <= i < |s| ==> keep(s[i])
    ensures Filter(s, keep) == s
  {
    if s != [] {
      FilterAll(s[1..], keep);
      assert s == [s[0]] + s[1..];
    }
  }

  predicate Distinct<T(==)>(s: seq<T>) {
    forall i, j :: 0 <= i < j < |s| ==> s[i] != s[j]
  }

  /** The position of the first occurrence of `x` in `s`. */
  function IndexOf<T(==)>(s: seq<T>, x: T): (i: nat)
    requires x in s
    ensures i < |s| && s[i] == x
    ensures forall j :: 0 <= j < i ==> s[j] != x
  {
    if s[0] == x then 0 else 1 + IndexOf(s[1..], x)
  }

  /** The elements of `s` with repeats dropped, each kept at its first occurrence:
      the effect of a loop that appends an element to a list when a `seen` set does
      not yet hold it. */
  function Dedup<T(==)>(s: seq<T>): seq<T>
  {
    if s == [] then []
    else
      var kept := Dedup(s[..|s| - 1]);
      if s[|s| - 1] in kept then kept else kept + [s[|s| - 1]]
  }

  lemma {:induction false} DedupMembers<T>(s: seq<T>)
    ensures forall x :: x in Dedup(s) ==> x in s
    ensures forall x :: x in s ==> x in Dedup(s)
  {
    if s != [] {
      var p := s[..|s| - 1];
      DedupMembers(p);
      assert s == p + [s[|s| - 1]];
    }
  }

  lemma {:induction false} DedupDistinct<T>(s: seq<T>)
    ensures Distinct(Dedup(s))
  {
    if s != [] {
      DedupDistinct(s[..|s| - 1]);
    }
  }

  lemma IndexOfPrefix<T>(s: seq<T>, n: nat, x: T)
    requires n <= |s| && x in s[..n]
    ensures x in s && IndexOf(s, x) == IndexOf(s[..n], x)
  {
    var i := IndexOf(s[..n], x);
    assert s[i] == x;
    var k := IndexOf(s, x);
    assert k <= i;
    assert s[..n][k] == x;
  }

  /** Dedup keeps the order of first appearance: an earlier element of the output first
      occurs earlier in the input. */
  lemma {:induction false} DedupFirstAppearanceOrder<T>(s: seq<T>)
    ensures forall i, j :: 0 <= i < j < |Dedup(s)| ==>
      Dedup(s)[i] in s && Dedup(s)[j] in s && IndexOf(s, Dedup(s)[i]) < IndexOf(s, Dedup(s)[j])
  {
    if s != [] {
      var n := |s| - 1;
      var p := s[..n];
      var kept := Dedup(p);
      DedupFirstAppearanceOrder(p);
      DedupMembers(p);
      DedupMembers(s);
      assert s[..n] == p;
      assert Dedup(s) == if s[n] in kept then kept else kept + [s[n]];
      forall i, j | 0 <= i < j < |Dedup(s)|
        ensures Dedup(s)[i] in s && Dedup(s)[j] in s && IndexOf(s, Dedup(s)[i]) < IndexOf(s, Dedup(s)[j])
      {
        var d := Dedup(s);
        assert d[i] in kept;
        IndexOfPrefix(s, n, d[i]);
        if j < |kept| {
          assert d[j] in kept;
          IndexOfPrefix(s, n, d[j]);
        } else {
          assert d[j] == s[n] && s[n] !in p;
          assert IndexOf(s, d[j]) == n;
        }
      }
    } else {
      assert Dedup(s) == [];
    }
  }

  /** A sequence without repeats is as long as the set of its elements is large. */
  lemma {:induction false} DistinctCardinality<T>(s: seq<T>)
    requires Distinct(s)
    ensures |set x | x in s| == |s|
  {
    if s != [] {
      var p := s[..|s| - 1];
      var last := s[|s| - 1];
      DistinctCardinality(p);
      assert (set x | x in s) == (set x | x in p) + {last};
      assert last !in (set x | x in p);
    }
  }

  /** The number of distinct elements, counted through a set, is the length of Dedup. */
  lemma DedupCount<T>(s: seq<T>)
    ensures |set x | x in s| == |Dedup(s)|
  {
    DedupMembers(s);
    DedupDistinct(s);
    DistinctCardinality(Dedup(s));
    assert (set x | x in s) == (set x | x in Dedup(s));
  }
}
