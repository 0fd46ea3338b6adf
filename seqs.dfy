/** Sequence helpers standing in for Python's set(), list.index and sorted(unique()). */
module Seqs {
  import opened Wrappers

  predicate NoDup<T(==)>(s: seq<T>) {
    forall i, j :: 0 <= i < j < |s| ==> s[i] != s[j]
  }

  /** Any slice of a duplicate-free sequence is duplicate-free. */
  lemma NoDupSlice<T>(s: seq<T>, lo: nat, hi: nat)
    requires NoDup(s) && lo <= hi <= |s|
    ensures NoDup(s[lo..hi])
  {
    forall i, j | 0 <= i < j < hi - lo ensures s[lo..hi][i] != s[lo..hi][j] {
      assert s[lo..hi][i] == s[lo + i] && s[lo..hi][j] == s[lo + j];
    }
  }

  /**
   * The distinct elements of s in order of first occurrence
   * (what `len(set(s))` counts and what `np.unique(s).size` counts).
   */
  function Dedup<T(==,!new)>(s: seq<T>): (r: seq<T>)
    ensures NoDup(r)
    ensures forall x :: x in r <==> x in s
    ensures |r| <= |s|
    decreases |s|
  {
    if s == [] then []
    else
      var p := Dedup(s[..|s| - 1]);
      assert forall x :: x in s <==> x in s[..|s| - 1] || x == s[|s| - 1];
      if s[|s| - 1] in p then p else p + [s[|s| - 1]]
  }

  lemma DedupSnoc<T(!new)>(s: seq<T>, x: T)
    ensures Dedup(s + [x]) == if x in s then Dedup(s) else Dedup(s) + [x]
  {
    assert (s + [x])[..|s|] == s;
  }

  /** A duplicate-free sequence is its own Dedup. */
  lemma {:induction false} DedupOfNoDup<T(!new)>(s: seq<T>)
    requires NoDup(s)
    ensures Dedup(s) == s
    decreases |s|
  {
    if s != [] {
      var p := s[..|s| - 1];
      DedupOfNoDup(p);
      DedupSnoc(p, s[|s| - 1]);
      assert s == p + [s[|s| - 1]];
    }
  }

  /** Deduplicating a prefix first changes nothing. */
  lemma {:induction false} DedupConcat<T(!new)>(a: seq<T>, b: seq<T>)
    ensures Dedup(Dedup(a) + b) == Dedup(a + b)
    decreases |b|
  {
    if b == [] {
      assert Dedup(a) + b == Dedup(a) && a + b == a;
      DedupOfNoDup(Dedup(a));
    } else {
      var b', x := b[..|b| - 1], b[|b| - 1];
      DedupConcat(a, b');
      assert Dedup(a) + b == (Dedup(a) + b') + [x];
      assert a + b == (a + b') + [x];
      DedupSnoc(Dedup(a) + b', x);
      DedupSnoc(a + b', x);
    }
  }

  /** Dedup of a prefix is a prefix of Dedup of the whole. */
  lemma {:induction false} DedupPrefix<T(!new)>(a: seq<T>, b: seq<T>)
    ensures |Dedup(a)| <= |Dedup(a + b)|
    ensures Dedup(a + b)[..|Dedup(a)|] == Dedup(a)
    decreases |b|
  {
    if b != [] {
      var b', x := b[..|b| - 1], b[|b| - 1];
      DedupPrefix(a, b');
      assert a + b == (a + b') + [x];
      DedupSnoc(a + b', x);
    } else {
      assert a + b == a;
    }
  }

  /** Appending k elements adds at most k distinct values. */
  lemma {:induction false} DedupGrowth<T(!new)>(a: seq<T>, b: seq<T>)
    ensures |Dedup(a + b)| <= |Dedup(a)| + |b|
    decreases |b|
  {
    if b != [] {
      var b', x := b[..|b| - 1], b[|b| - 1];
      DedupGrowth(a, b');
      assert a + b == (a + b') + [x];
      DedupSnoc(a + b', x);
    } else {
      assert a + b == a;
    }
  }

  /** `list.index(x)` without the exception: the first position of x, if any. */
  function FirstIndexOf<T(==)>(s: seq<T>, x: T): (r: Option<nat>)
    ensures r.Some? <==> x in s
    ensures r.Some? ==> r.value < |s| && s[r.value] == x && x !in s[..r.value]
  {
    if s == [] then None
    else if s[0] == x then Some(0)
    else match FirstIndexOf(s[1..], x)
      case None => None
      case Some(i) =>
        assert s[1..][..i] == s[1..i + 1];
        assert s[..i + 1] == [s[0]] + s[1..i + 1];
        Some(i + 1)
  }

  /** Any position holding x with no earlier x is the first index. */
  lemma FirstIndexUnique<T>(s: seq<T>, x: T, i: nat)
    requires i < |s| && s[i] == x && x !in s[..i]
    ensures FirstIndexOf(s, x) == Some(i)
  {
    var r := FirstIndexOf(s, x).value;
    assert forall k :: 0 <= k < i ==> s[k] != x;
    assert forall k :: 0 <= k < r ==> s[k] != x;
  }

  /** In a duplicate-free sequence, the first index of s[i] is i. */
  lemma FirstIndexNoDup<T>(s: seq<T>, i: nat)
    requires NoDup(s) && i < |s|
    ensures FirstIndexOf(s, s[i]) == Some(i)
  {
    assert forall k :: 0 <= k < i ==> s[..i][k] == s[k] && s[k] != s[i];
    FirstIndexUnique(s, s[i], i);
  }

  /** Appending an element leaves first indices of earlier elements alone. */
  lemma FirstIndexSnoc<T>(s: seq<T>, x: T, y: T)
    ensures y in s ==> FirstIndexOf(s + [x], y) == FirstIndexOf(s, y)
    ensures y !in s && y == x ==> FirstIndexOf(s + [x], y) == Some(|s|)
  {
    if y in s {
      var i := FirstIndexOf(s, y).value;
      assert (s + [x])[..i] == s[..i];
      FirstIndexUnique(s + [x], y, i);
    } else if y == x {
      assert (s + [x])[..|s|] == s;
      FirstIndexUnique(s + [x], y, |s|);
    }
  }

  /** Dedup lists the values in order of their first occurrence. */
  lemma {:induction false} DedupFirstIndexOrder<T(!new)>(s: seq<T>)
    ensures forall i, j :: 0 <= i < j < |Dedup(s)| ==>
      FirstIndexOf(s, Dedup(s)[i]).value < FirstIndexOf(s, Dedup(s)[j]).value
    decreases |s|
  {
    if s != [] {
      var p, x := s[..|s| - 1], s[|s| - 1];
      assert s == p + [x];
      DedupFirstIndexOrder(p);
      DedupSnoc(p, x);
      var d := Dedup(p);
      forall i | 0 <= i < |d| ensures FirstIndexOf(s, d[i]) == FirstIndexOf(p, d[i]) {
        assert d[i] in d;
        FirstIndexSnoc(p, x, d[i]);
      }
      if x !in p {
        FirstIndexSnoc(p, x, x);
      }
    }
  }

  /** The first index in `order` of each element of a. */
  function Ranks<T(==)>(order: seq<T>, a: seq<T>): (r: seq<int>)
    requires forall x :: x in a ==> x in order
    ensures |r| == |a|
    ensures forall i :: 0 <= i < |a| ==> r[i] == FirstIndexOf(order, a[i]).value
  {
    seq(|a|, i requires 0 <= i < |a| => assert a[i] in a; FirstIndexOf(order, a[i]).value)
  }

  /** Ranks of the elements of a are ranks of elements of b when every element of a is in b. */
  lemma RanksIncluded<T(!new)>(a: seq<T>, b: seq<T>, order: seq<T>)
    requires forall x :: x in a ==> x in order
    requires forall x :: x in b ==> x in order
    requires forall x :: x in a ==> x in b
    ensures forall r :: r in Ranks(order, a) ==> r in Ranks(order, b)
  {
    var ra, rb := Ranks(order, a), Ranks(order, b);
    forall r | r in ra ensures r in rb {
      var i :| 0 <= i < |a| && ra[i] == r;
      assert a[i] in a;
      var j :| 0 <= j < |b| && b[j] == a[i];
      assert rb[j] == r;
    }
  }

  /**
   * Two duplicate-free listings of the same values, each in increasing order
   * of first index in `order`, are the same listing.
   */
  lemma FirstIndexOrderedEqual<T(!new)>(a: seq<T>, b: seq<T>, order: seq<T>)
    requires forall x :: x in a ==> x in order
    requires forall x :: x in a <==> x in b
    requires forall i, j :: 0 <= i < j < |a| ==> FirstIndexOf(order, a[i]).value < FirstIndexOf(order, a[j]).value
    requires forall i, j :: 0 <= i < j < |b| ==> FirstIndexOf(order, b[i]).value < FirstIndexOf(order, b[j]).value
    ensures a == b
  {
    RanksIncluded(a, b, order);
    RanksIncluded(b, a, order);
    var ra, rb := Ranks(order, a), Ranks(order, b);
    StrictlyIncreasingUnique(ra, rb);
    forall i | 0 <= i < |a| ensures a[i] == b[i] {
      assert a[i] in a && b[i] in b;
      assert order[ra[i]] == a[i] && order[rb[i]] == b[i];
    }
  }

  // ---------------------------------------------------------------- sorted unique values

  predicate StrictlyIncreasing(s: seq<int>) {
    forall i, j :: 0 <= i < j < |s| ==> s[i] < s[j]
  }

  function InsertSorted(x: int, s: seq<int>): (r: seq<int>)
    requires StrictlyIncreasing(s)
    ensures StrictlyIncreasing(r)
    ensures forall y :: y in r <==> y == x || y in s
  {
    if s == [] then [x]
    else if x < s[0] then [x] + s
    else if x == s[0] then s
    else
      var t := InsertSorted(x, s[1..]);
      assert forall y :: y in s <==> y == s[0] || y in s[1..];
      forall k | 0 <= k < |t| ensures s[0] < t[k] {
        assert t[k] in t;
        if t[k] != x {
          var m :| 0 <= m < |s[1..]| && s[1..][m] == t[k];
          assert s[m + 1] == t[k];
        }
      }
      [s[0]] + t
  }

  /** `sorted(set(s))` for integers: ascending, no repeats, same values as s. */
  function SortedUnique(s: seq<int>): (r: seq<int>)
    ensures StrictlyIncreasing(r)
    ensures forall y :: y in r <==> y in s
    decreases |s|
  {
    if s == [] then []
    else
      assert forall y :: y in s <==> y in s[..|s| - 1] || y == s[|s| - 1];
      InsertSorted(s[|s| - 1], SortedUnique(s[..|s| - 1]))
  }

  /** A finite set of integers has exactly one ascending enumeration. */
  lemma {:induction false} StrictlyIncreasingUnique(a: seq<int>, b: seq<int>)
    requires StrictlyIncreasing(a) && StrictlyIncreasing(b)
    requires forall x :: x in a <==> x in b
    ensures a == b
    decreases |a|
  {
    if b != [] { assert b[0] in b; }
    if a != [] {
      assert a[0] in a;
      assert a[0] in b;
      assert b[0] in a;
      assert a[0] == b[0];
      forall x ensures x in a[1..] <==> x in b[1..] {
        assert x in a[1..] <==> x in a && x != a[0];
        assert x in b[1..] <==> x in b && x != b[0];
      }
      StrictlyIncreasingUnique(a[1..], b[1..]);
      assert a == [a[0]] + a[1..] && b == [b[0]] + b[1..];
    }
  }
}
