/** Sequence operations the front end and back end share: duplicate-free lists and `splice(indexOf(x), 1)`. */
module Lists {
  /** No element occurs twice. */
  predicate Distinct<T(==)>(s: seq<T>) {
    forall i, j :: 0 <= i < j < |s| ==> s[i] != s[j]
  }

  /**
   * Deletes the first occurrence of `x`; a list without `x` is returned as it is
   * (JavaScript's guarded `splice(indexOf(x), 1)`, Python's `list.remove` once its error case is excluded).
   */
  function RemoveFirst<T(==)>(s: seq<T>, x: T): (r: seq<T>)
    ensures x !in s ==> r == s
    ensures x in s ==> |r| == |s| - 1
    ensures multiset(r) == multiset(s) - multiset{x}
  {
    if s == [] then []
    else
      assert s == [s[0]] + s[1..];
      if s[0] == x then s[1..]
      else [s[0]] + RemoveFirst(s[1..], x)
  }

  /** The tail of a duplicate-free list is duplicate-free and does not contain the head. */
  lemma TailDistinct<T>(s: seq<T>)
    requires s != [] && Distinct(s)
    ensures Distinct(s[1..]) && s[0] !in s[1..]
  {
    var t := s[1..];
    forall a, b | 0 <= a < b < |t| ensures t[a] != t[b] {
      assert t[a] == s[a + 1] && t[b] == s[b + 1];
    }
    forall k | 0 <= k < |t| ensures t[k] != s[0] {
      assert t[k] == s[k + 1];
    }
  }

  /** Putting an element not in a duplicate-free list in front of it keeps it duplicate-free. */
  lemma ConsDistinct<T>(x: T, s: seq<T>)
    requires Distinct(s) && x !in s
    ensures Distinct([x] + s)
  {
    var r := [x] + s;
    forall a, b | 0 <= a < b < |r| ensures r[a] != r[b] {
      if a > 0 { assert r[a] == s[a - 1]; }
      assert r[b] == s[b - 1];
    }
  }

  /** `indexOf`: the position of the first occurrence of `x`. */
  function IndexOf<T(==)>(s: seq<T>, x: T): (i: nat)
    requires x in s
    ensures i < |s| && s[i] == x
    ensures forall k :: 0 <= k < i ==> s[k] != x
  {
    if s[0] == x then 0 else 1 + IndexOf(s[1..], x)
  }

  /** `RemoveFirst` is `splice(indexOf(x), 1)`: what comes before the first `x` stays, what follows moves down one. */
  lemma {:induction false} RemoveFirstAtIndex<T>(s: seq<T>, x: T)
    requires x in s
    ensures RemoveFirst(s, x) == s[..IndexOf(s, x)] + s[IndexOf(s, x) + 1..]
  {
    if s[0] != x {
      var t := s[1..];
      RemoveFirstAtIndex(t, x);
      var i := IndexOf(t, x);
      assert IndexOf(s, x) == i + 1;
      assert RemoveFirst(s, x) == [s[0]] + (t[..i] + t[i + 1..]);
      ConsSplice(s, i);
    } else {
      assert IndexOf(s, x) == 0;
      assert RemoveFirst(s, x) == s[1..];
      assert s[..0] + s[1..] == s[1..];
    }
  }

  /** Concatenation regroups. */
  lemma AppendAssoc<T>(a: seq<T>, b: seq<T>, c: seq<T>)
    ensures (a + b) + c == a + (b + c)
  {
  }

  /** A slice of a suffix is a slice of the whole, shifted by the dropped length. */
  lemma DropSlice<T>(s: seq<T>, d: nat, i: nat, j: nat)
    requires d <= |s| && i <= j <= |s| - d
    ensures s[d..][i..j] == s[d + i..d + j]
  {
  }

  /** Appending one element leaves the earlier elements, and what follows each of them, in place. */
  lemma SnocSlice<T>(a: seq<T>, x: T, i: nat)
    requires i < |a|
    ensures (a + [x])[i] == a[i] && (a + [x])[i + 1..] == a[i + 1..] + [x]
  {
  }

  /** Splicing index `i` out of the tail and putting the head back is splicing index `i + 1` out of the whole. */
  lemma ConsSplice<T>(s: seq<T>, i: nat)
    requires i + 1 < |s|
    ensures [s[0]] + (s[1..][..i] + s[1..][i + 1..]) == s[..i + 1] + s[i + 2..]
  {
    assert s[..i + 1] == [s[0]] + s[1..][..i];
    assert s[i + 2..] == s[1..][i + 1..];
  }

  /** The front end's `const index = list.indexOf(x); if (index > -1) list.splice(index, 1);` on a copy of the list. */
  method SpliceOut<T(==)>(s: seq<T>, x: T) returns (r: seq<T>)
    ensures r == RemoveFirst(s, x)
  {
    r := s;
    if x in s {
      RemoveFirstAtIndex(s, x);
      var index := IndexOf(s, x);
      r := s[..index] + s[index + 1..];
    }
  }

  /** On a duplicate-free list `RemoveFirst` removes `x` altogether and keeps the list duplicate-free. */
  lemma {:induction false} RemoveFirstDistinct<T>(s: seq<T>, x: T)
    requires Distinct(s)
    ensures Distinct(RemoveFirst(s, x))
    ensures x !in RemoveFirst(s, x)
  {
    if s != [] {
      TailDistinct(s);
      if s[0] != x {
        var t := s[1..];
        RemoveFirstDistinct(t, x);
        var r' := RemoveFirst(t, x);
        assert multiset(r')[s[0]] <= multiset(t)[s[0]] == 0;
        ConsDistinct(s[0], r');
      }
    }
  }

  /** What `RemoveFirst` keeps: every other element, and `x` only where it occurred twice. */
  lemma RemoveFirstMember<T>(s: seq<T>, x: T, y: T)
    ensures y != x ==> (y in RemoveFirst(s, x) <==> y in s)
  {
    if y != x {
      assert multiset(RemoveFirst(s, x))[y] == multiset(s)[y];
    }
  }

  /** Appending a fresh element keeps a list duplicate-free. */
  lemma AppendFreshDistinct<T>(s: seq<T>, x: T)
    requires Distinct(s) && x !in s
    ensures Distinct(s + [x])
  {
    var t := s + [x];
    forall a, b | 0 <= a < b < |t| ensures t[a] != t[b] {
      if b == |s| { assert t[a] == s[a]; }
    }
  }
}
