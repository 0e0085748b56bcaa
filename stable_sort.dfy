/**
 * The stable sort behind `Stream.sorted(Comparator)`: a comparator is read as
 * a total preorder `leq` (leq(a, b) when a may come before b), and the sort
 * orders the elements while keeping every class of equivalent elements in
 * its input order.
 */
module StableSort {

  /**
   * A term that mentions a and b only: the order axioms below are triggered
   * by it, so a proof uses them just at the pairs and triples it names
   * (through TotalAt and TransitiveAt) instead of at every comparison in
   * sight.
   */
  ghost predicate Among<T>(a: T, b: T) { true }

  /** Any two elements are comparable. */
  ghost predicate Total<T(!new)>(leq: (T, T) -> bool)
  {
    forall a, b {:trigger Among(a, b)} :: leq(a, b) || leq(b, a)
  }

  ghost predicate Transitive<T(!new)>(leq: (T, T) -> bool)
  {
    forall a, b, c {:trigger Among(a, b), Among(b, c)} :: leq(a, b) && leq(b, c) ==> leq(a, c)
  }

  /** The order a comparator induces: total and transitive, ties allowed. */
  ghost predicate TotalPreorder<T(!new)>(leq: (T, T) -> bool)
  {
    Total(leq) && Transitive(leq)
  }

  lemma TotalAt<T(!new)>(leq: (T, T) -> bool, a: T, b: T)
    requires Total(leq)
    ensures leq(a, b) || leq(b, a)
  {
    assert Among(a, b);
  }

  lemma TransitiveAt<T(!new)>(leq: (T, T) -> bool, a: T, b: T, c: T)
    requires Transitive(leq) && leq(a, b) && leq(b, c)
    ensures leq(a, c)
  {
    assert Among(a, b) && Among(b, c);
  }

  /** Every element may come before every later one. */
  predicate Sorted<T>(s: seq<T>, leq: (T, T) -> bool)
  {
    forall i, j :: 0 <= i < j < |s| ==> leq(s[i], s[j])
  }

  /** a and b are ties: each may come before the other. */
  predicate Equivalent<T>(a: T, b: T, leq: (T, T) -> bool)
  {
    leq(a, b) && leq(b, a)
  }

  /** The elements of s that tie with e, in their order in s. */
  function Ties<T>(s: seq<T>, e: T, leq: (T, T) -> bool): (r: seq<T>)
    ensures |r| <= |s|
  {
    if s == [] then []
    else (if Equivalent(s[0], e, leq) then [s[0]] else []) + Ties(s[1..], e, leq)
  }

  /** Taking the ties of two runs one after the other keeps both runs' ties, in order. */
  lemma {:induction false} TiesAppend<T>(a: seq<T>, b: seq<T>, e: T, leq: (T, T) -> bool)
    ensures Ties(a + b, e, leq) == Ties(a, e, leq) + Ties(b, e, leq)
  {
    if a != [] {
      assert (a + b)[1..] == a[1..] + b;
      TiesAppend(a[1..], b, e, leq);
    } else {
      assert a + b == b;
    }
  }

  /** A run none of whose elements ties with e has no ties with e. */
  lemma {:induction false} NoTies<T>(s: seq<T>, e: T, leq: (T, T) -> bool)
    requires forall i :: 0 <= i < |s| ==> !Equivalent(s[i], e, leq)
    ensures Ties(s, e, leq) == []
  {
    if s != [] {
      NoTies(s[1..], e, leq);
    }
  }

  /** x inserted into r after the leading elements that may come before it: r and x, nothing lost. */
  function Insert<T>(r: seq<T>, x: T, leq: (T, T) -> bool): (res: seq<T>)
    ensures |res| == |r| + 1
    ensures multiset(res) == multiset(r) + multiset{x}
  {
    if r == [] then [x]
    else if leq(r[0], x) then
      assert r == [r[0]] + r[1..];
      [r[0]] + Insert(r[1..], x, leq)
    else [x] + r
  }

  /** Every element of Insert(r, x) is x or an element of r. */
  lemma InsertElements<T>(r: seq<T>, x: T, leq: (T, T) -> bool, j: nat)
    requires j < |Insert(r, x, leq)|
    ensures Insert(r, x, leq)[j] == x || exists k :: 0 <= k < |r| && r[k] == Insert(r, x, leq)[j]
  {
    var y := Insert(r, x, leq)[j];
    assert y in multiset(r) + multiset{x};
  }

  /** The tail of a sorted run is sorted. */
  lemma SortedTail<T>(r: seq<T>, leq: (T, T) -> bool)
    requires r != [] && Sorted(r, leq)
    ensures Sorted(r[1..], leq)
  {
    forall i, j | 0 <= i < j < |r| - 1
      ensures leq(r[1..][i], r[1..][j])
    {
      assert r[1..][i] == r[i + 1] && r[1..][j] == r[j + 1];
    }
  }

  /** Inserting into a sorted run keeps it sorted. */
  lemma {:induction false} InsertSorted<T(!new)>(r: seq<T>, x: T, leq: (T, T) -> bool)
    requires TotalPreorder(leq) && Sorted(r, leq)
    ensures Sorted(Insert(r, x, leq), leq)
  {
    if r == [] {
    } else if leq(r[0], x) {
      var tail := Insert(r[1..], x, leq);
      InsertSorted(r[1..], x, leq);
      forall j | 0 <= j < |tail|
        ensures leq(r[0], tail[j])
      {
        InsertElements(r[1..], x, leq, j);
        if tail[j] != x {
          var k :| 0 <= k < |r[1..]| && r[1..][k] == tail[j];
          assert r[k + 1] == tail[j];
        }
      }
      assert Insert(r, x, leq) == [r[0]] + tail;
    } else {
      TotalAt(leq, r[0], x);
      forall i | 0 < i < |r|
        ensures leq(x, r[i])
      {
        TransitiveAt(leq, x, r[0], r[i]);
      }
    }
  }

  /** The ties of a run with an element in front: that element's tie, if any, then the rest's. */
  lemma TiesCons<T>(a: T, s: seq<T>, e: T, leq: (T, T) -> bool)
    ensures Ties([a] + s, e, leq) == Ties([a], e, leq) + Ties(s, e, leq)
  {
    assert ([a] + s)[1..] == s;
    assert Ties([a], e, leq) == (if Equivalent(a, e, leq) then [a] else []) + Ties([], e, leq);
  }

  /**
   * Inserting x keeps the ties of every e: x joins them last when it ties
   * with e, since every element it is placed before comes strictly after it.
   */
  lemma {:induction false} InsertTies<T(!new)>(r: seq<T>, x: T, e: T, leq: (T, T) -> bool)
    requires TotalPreorder(leq) && Sorted(r, leq)
    ensures Ties(Insert(r, x, leq), e, leq) == Ties(r, e, leq) + Ties([x], e, leq)
  {
    if r == [] {
      assert Insert(r, x, leq) == [x];
      assert Ties(r, e, leq) == [];
    } else if leq(r[0], x) {
      SortedTail(r, leq);
      InsertTies(r[1..], x, e, leq);
      InsertTiesPast(r, x, e, leq);
    } else {
      InsertTiesBefore(r, x, e, leq);
    }
  }

  /** The ties of a non-empty run: its first element's tie, if any, then the rest's. */
  lemma TiesFirst<T>(r: seq<T>, e: T, leq: (T, T) -> bool)
    requires r != []
    ensures Ties(r, e, leq) == Ties([r[0]], e, leq) + Ties(r[1..], e, leq)
  {
    assert r == [r[0]] + r[1..];
    TiesCons(r[0], r[1..], e, leq);
  }

  /** Inserting past the first element keeps that element first. */
  lemma InsertPast<T>(r: seq<T>, x: T, leq: (T, T) -> bool)
    requires r != [] && leq(r[0], x)
    ensures Insert(r, x, leq) == [r[0]] + Insert(r[1..], x, leq)
  {
  }

  /** When x goes past the first element, the ties are the first element's and those of the insertion into the rest. */
  lemma InsertTiesPast<T>(r: seq<T>, x: T, e: T, leq: (T, T) -> bool)
    requires r != [] && leq(r[0], x)
    requires Ties(Insert(r[1..], x, leq), e, leq) == Ties(r[1..], e, leq) + Ties([x], e, leq)
    ensures Ties(Insert(r, x, leq), e, leq) == Ties(r, e, leq) + Ties([x], e, leq)
  {
    var t := Insert(r[1..], x, leq);
    InsertPast(r, x, leq);
    TiesCons(r[0], t, e, leq);
    TiesFirst(r, e, leq);
    SeqAssoc(Ties([r[0]], e, leq), Ties(r[1..], e, leq), Ties([x], e, leq));
  }

  lemma SeqAssoc<T>(a: seq<T>, b: seq<T>, c: seq<T>)
    ensures a + (b + c) == (a + b) + c
  {
  }

  /** When x goes first, no element after it ties with anything x ties with. */
  lemma InsertTiesBefore<T(!new)>(r: seq<T>, x: T, e: T, leq: (T, T) -> bool)
    requires TotalPreorder(leq) && Sorted(r, leq)
    requires r != [] && !leq(r[0], x)
    ensures Ties(Insert(r, x, leq), e, leq) == Ties(r, e, leq) + Ties([x], e, leq)
  {
    assert Insert(r, x, leq) == [x] + r;
    TiesCons(x, r, e, leq);
    if Equivalent(x, e, leq) {
      NoTiesAfter(r, x, e, leq);
      assert Ties([x], e, leq) == [x];
    } else {
      assert Ties([x], e, leq) == [];
    }
  }

  /** A sorted run whose first element cannot come before x holds no tie of anything tying with x. */
  lemma NoTiesAfter<T(!new)>(r: seq<T>, x: T, e: T, leq: (T, T) -> bool)
    requires TotalPreorder(leq) && Sorted(r, leq)
    requires r != [] && !leq(r[0], x) && Equivalent(x, e, leq)
    ensures Ties(r, e, leq) == []
  {
    forall i | 0 <= i < |r|
      ensures !Equivalent(r[i], e, leq)
    {
      if Equivalent(r[i], e, leq) {
        TransitiveAt(leq, r[i], e, x);
        if i > 0 {
          TransitiveAt(leq, r[0], r[i], x);
        }
      }
    }
    NoTies(r, e, leq);
  }

  /** Insertion sort from the back: the sort of a total preorder, sorted and a permutation. */
  function Sort<T(!new)>(s: seq<T>, leq: (T, T) -> bool): (r: seq<T>)
    requires TotalPreorder(leq)
    ensures Sorted(r, leq)
    ensures multiset(r) == multiset(s)
    ensures |r| == |s|
  {
    if s == [] then []
    else
      var front, x := s[..|s| - 1], s[|s| - 1];
      var sorted := Sort(front, leq);
      InsertSorted(sorted, x, leq);
      LastSplit(s);
      Insert(sorted, x, leq)
  }

  /** A non-empty run's multiset is that of its front and its last element. */
  lemma LastSplit<T>(s: seq<T>)
    requires s != []
    ensures multiset(s) == multiset(s[..|s| - 1]) + multiset{s[|s| - 1]}
  {
    assert s == s[..|s| - 1] + [s[|s| - 1]];
  }

  /** The sort is stable: the elements tying with any e come out in their input order. */
  lemma {:induction false} SortIsStable<T(!new)>(s: seq<T>, e: T, leq: (T, T) -> bool)
    requires TotalPreorder(leq)
    ensures Ties(Sort(s, leq), e, leq) == Ties(s, e, leq)
  {
    if s != [] {
      var front, x := s[..|s| - 1], s[|s| - 1];
      SortIsStable(front, e, leq);
      SortLast(s, leq);
      InsertTies(Sort(front, leq), x, e, leq);
      TiesLast(s, e, leq);
    }
  }

  /** The sort of a non-empty run inserts its last element into the sort of its front. */
  lemma SortLast<T(!new)>(s: seq<T>, leq: (T, T) -> bool)
    requires TotalPreorder(leq) && s != []
    ensures Sort(s, leq) == Insert(Sort(s[..|s| - 1], leq), s[|s| - 1], leq)
  {
  }

  /** The ties of a non-empty run: those of its front, then its last element's tie, if any. */
  lemma TiesLast<T>(s: seq<T>, e: T, leq: (T, T) -> bool)
    requires s != []
    ensures Ties(s, e, leq) == Ties(s[..|s| - 1], e, leq) + Ties([s[|s| - 1]], e, leq)
  {
    assert s == s[..|s| - 1] + [s[|s| - 1]];
    TiesAppend(s[..|s| - 1], [s[|s| - 1]], e, leq);
  }
}
