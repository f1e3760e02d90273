/** Sequences without repetition, and the part of one that a set selects. */
module Sequences {

  ghost predicate NoDup<T>(s: seq<T>) {
    s == [] || (s[0] !in s[1..] && NoDup(s[1..]))
  }

  lemma {:induction false} NoDupAt<T>(s: seq<T>, i: nat)
    requires NoDup(s) && i < |s|
    ensures forall j :: 0 <= j < |s| && j != i ==> s[j] != s[i]
  {
    if i > 0 {
      NoDupAt(s[1..], i - 1);
      forall j | 0 < j < |s| && j != i
        ensures s[j] != s[i]
      {
        assert s[1..][j - 1] == s[j];
      }
    }
  }

  function Elements<T(!new)>(s: seq<T>): (r: set<T>)
    ensures forall x :: x in r <==> x in s
  {
    set x | x in s
  }

  /** The elements of s that lie in ks, in the order of s. */
  function Keep<T(!new,==)>(s: seq<T>, ks: set<T>): (r: seq<T>)
    ensures forall x :: x in r <==> x in s && x in ks
    ensures |r| <= |s|
  {
    if s == [] then []
    else if s[0] in ks then [s[0]] + Keep(s[1..], ks)
    else Keep(s[1..], ks)
  }

  lemma {:induction false} KeepConcat<T(!new)>(a: seq<T>, b: seq<T>, ks: set<T>)
    ensures Keep(a + b, ks) == Keep(a, ks) + Keep(b, ks)
  {
    if a == [] {
      assert a + b == b;
    } else {
      assert (a + b)[1..] == a[1..] + b;
      KeepConcat(a[1..], b, ks);
    }
  }

  lemma {:induction false} KeepNoDup<T(!new)>(s: seq<T>, ks: set<T>)
    requires NoDup(s)
    ensures NoDup(Keep(s, ks))
  {
    if s != [] {
      KeepNoDup(s[1..], ks);
    }
  }

  /** Only what ks says about the elements of s matters. */
  lemma {:induction false} KeepAgree<T(!new)>(s: seq<T>, ks: set<T>, ms: set<T>)
    requires forall x :: x in s ==> (x in ks <==> x in ms)
    ensures Keep(s, ks) == Keep(s, ms)
  {
    if s != [] {
      assert s[0] in s;
      forall x | x in s[1..]
        ensures x in ks <==> x in ms
      {
        assert x in s;
      }
      KeepAgree(s[1..], ks, ms);
    }
  }

  lemma {:induction false} KeepAll<T(!new)>(s: seq<T>, ks: set<T>)
    requires forall x :: x in s ==> x in ks
    ensures Keep(s, ks) == s
  {
    if s != [] {
      assert s[0] in s;
      assert forall x :: x in s[1..] ==> x in s;
      KeepAll(s[1..], ks);
    }
  }

  lemma {:induction false} KeepNone<T(!new)>(s: seq<T>, ks: set<T>)
    requires forall x :: x in s ==> x !in ks
    ensures Keep(s, ks) == []
  {
    if s != [] {
      assert s[0] in s;
      assert forall x :: x in s[1..] ==> x in s;
      KeepNone(s[1..], ks);
    }
  }

  lemma {:induction false} KeepKeep<T(!new)>(s: seq<T>, ks: set<T>, ms: set<T>)
    ensures Keep(Keep(s, ks), ms) == Keep(s, ks * ms)
  {
    if s != [] {
      KeepKeep(s[1..], ks, ms);
      if s[0] in ks {
        assert ([s[0]] + Keep(s[1..], ks))[1..] == Keep(s[1..], ks);
      }
    }
  }

  lemma {:induction false} NoDupSplit<T(!new)>(x: seq<T>, y: seq<T>)
    requires NoDup(x + y)
    ensures NoDup(x) && NoDup(y)
    ensures forall a :: a in x ==> a !in y
  {
    if x == [] {
      assert x + y == y;
    } else {
      assert (x + y)[1..] == x[1..] + y;
      NoDupSplit(x[1..], y);
    }
  }

  /** A prefix of a sequence without repetition is the part selected by the prefix's own elements. */
  lemma PrefixIsKeep<T(!new)>(s: seq<T>, n: nat)
    requires NoDup(s) && n <= |s|
    ensures Keep(s, Elements(s[..n])) == s[..n]
    ensures NoDup(s[..n])
  {
    var x, y, ks := s[..n], s[n..], Elements(s[..n]);
    assert s == x + y;
    NoDupSplit(x, y);
    KeepConcat(x, y, ks);
    KeepAll(x, ks);
    KeepNone(y, ks);
  }

  /** Removing the element at i is keeping all the others. */
  lemma {:induction false} RemoveIsKeep<T(!new)>(s: seq<T>, i: nat, ks: set<T>)
    requires NoDup(s) && i < |s|
    requires forall x :: x in s ==> (x in ks <==> x != s[i])
    ensures s[..i] + s[i + 1..] == Keep(s, ks)
  {
    assert forall x :: x in s[1..] ==> x in s;
    assert s[0] in s && s[i] in s;
    if i == 0 {
      KeepAll(s[1..], ks);
    } else {
      assert s[1..][i - 1] == s[i];
      RemoveIsKeep(s[1..], i - 1, ks);
      assert s[..i] + s[i + 1..] == [s[0]] + (s[1..][..i - 1] + s[1..][i..]);
    }
  }

  /** The last element of s, when selected, is the last element of the selection. */
  lemma KeepLast<T(!new)>(s: seq<T>, ks: set<T>)
    requires s != [] && s[|s| - 1] in ks
    ensures Keep(s, ks) != [] && Keep(s, ks)[|Keep(s, ks)| - 1] == s[|s| - 1]
  {
    var n := |s| - 1;
    assert s == s[..n] + [s[n]];
    KeepConcat(s[..n], [s[n]], ks);
  }

  /** Each element of s is above all later ones. */
  ghost predicate Sorted<T(!new)>(s: seq<T>, above: (T, T) -> bool) {
    s == [] || ((forall x :: x in s[1..] ==> above(s[0], x)) && Sorted(s[1..], above))
  }

  lemma SortedCons<T(!new)>(x: T, s: seq<T>, above: (T, T) -> bool)
    requires Sorted(s, above) && forall y :: y in s ==> above(x, y)
    ensures Sorted([x] + s, above)
  {
    assert ([x] + s)[1..] == s;
  }

  lemma {:induction false} SortedLast<T(!new)>(s: seq<T>, above: (T, T) -> bool)
    requires Sorted(s, above) && s != []
    ensures forall x :: x in s && x != s[|s| - 1] ==> above(x, s[|s| - 1])
  {
    if |s| > 1 {
      SortedLast(s[1..], above);
      assert s[|s| - 1] == s[1..][|s| - 2] && s == [s[0]] + s[1..];
    }
  }

  lemma {:induction false} SortedIndices<T(!new)>(s: seq<T>, above: (T, T) -> bool)
    requires Sorted(s, above)
    ensures forall i, j :: 0 <= i < j < |s| ==> above(s[i], s[j])
  {
    if s != [] {
      SortedIndices(s[1..], above);
    }
  }

  /** Keep never swaps two elements, so it preserves every order, also one that agrees on s. */
  lemma {:induction false} KeepSorted<T(!new)>(s: seq<T>, ks: set<T>, above: (T, T) -> bool, above': (T, T) -> bool)
    requires Sorted(s, above)
    requires forall x, y :: x in s && y in s && x in ks && y in ks && above(x, y) ==> above'(x, y)
    ensures Sorted(Keep(s, ks), above')
  {
    if s != [] {
      assert s[0] in s;
      assert forall x :: x in s[1..] ==> x in s;
      KeepSorted(s[1..], ks, above, above');
    }
  }

  lemma {:induction false} NoDupSize<T(!new)>(s: seq<T>)
    requires NoDup(s)
    ensures |Elements(s)| == |s|
  {
    if s != [] {
      NoDupSize(s[1..]);
      assert Elements(s) == Elements(s[1..]) + {s[0]};
    }
  }

  lemma SubsetSize<T(!new)>(a: set<T>, b: set<T>)
    requires a <= b
    ensures |a| <= |b| && |b - a| == |b| - |a|
  {
    assert b == a + (b - a);
  }
}
