/**
 Stable merging and sorting of sequences, for any total preorder: what lib/lsort.c computes.
 */
module StableSort {
  import opened Lists

  type Order = (nat, nat) -> bool

  ghost predicate TotalPreorder(le: Order) {
    && (forall x, y :: le(x, y) || le(y, x))
    && (forall x, y, z :: le(x, y) && le(y, z) ==> le(x, z))
  }

  /** The two lists merged; of equal entries those of the first come first. */
  ghost function Merged(le: Order, a: seq<nat>, b: seq<nat>): seq<nat> {
    if a == [] then b
    else if b == [] then a
    else if le(a[0], b[0]) then [a[0]] + Merged(le, a[1..], b)
    else [b[0]] + Merged(le, a, b[1..])
  }

  ghost function Sorted(le: Order, s: seq<nat>): seq<nat> {
    if s == [] then [] else Merged(le, Sorted(le, s[..|s| - 1]), [s[|s| - 1]])
  }

  ghost predicate InOrder(le: Order, s: seq<nat>) {
    forall i, j | 0 <= i < j < |s| :: le(s[i], s[j])
  }

  /** The entries that are as large as `z`, in their order */
  ghost function Equals(le: Order, s: seq<nat>, z: nat): seq<nat> {
    if s == [] then [] else (if le(s[0], z) && le(z, s[0]) then [s[0]] else []) + Equals(le, s[1..], z)
  }

  lemma {:induction false} MergedAssoc(le: Order, a: seq<nat>, b: seq<nat>, c: seq<nat>)
    requires TotalPreorder(le)
    ensures Merged(le, Merged(le, a, b), c) == Merged(le, a, Merged(le, b, c))
    decreases |a| + |b| + |c|
  {
    if a != [] && b != [] && c != [] {
      var x, y, z := a[0], b[0], c[0];
      var ab, bc := Merged(le, a, b), Merged(le, b, c);
      assert le(x, y) ==> ab == [x] + Merged(le, a[1..], b);
      assert !le(x, y) ==> ab == [y] + Merged(le, a, b[1..]);
      assert le(y, z) ==> bc == [y] + Merged(le, b[1..], c);
      assert !le(y, z) ==> bc == [z] + Merged(le, b, c[1..]);
      if le(x, y) && le(x, z) {
        MergedAssoc(le, a[1..], b, c);
        assert ab[1..] == Merged(le, a[1..], b);
      } else if le(y, z) && !le(x, y) {
        MergedAssoc(le, a, b[1..], c);
        assert ab[1..] == Merged(le, a, b[1..]) && bc[1..] == Merged(le, b[1..], c);
      } else {
        assert !le(y, z) && !le(x, z);
        MergedAssoc(le, a, b, c[1..]);
        assert bc[1..] == Merged(le, b, c[1..]);
      }
    }
  }

  /** Sorting two halves and merging them is sorting the whole. */
  lemma {:induction false} SortedParts(le: Order, a: seq<nat>, b: seq<nat>)
    requires TotalPreorder(le)
    ensures Merged(le, Sorted(le, a), Sorted(le, b)) == Sorted(le, a + b)
    decreases |b|
  {
    hide Merged, TotalPreorder;
    if b == [] {
      assert a + b == a;
      MergedNone(le, Sorted(le, a));
    } else {
      var f, l := b[..|b| - 1], [b[|b| - 1]];
      assert (a + b)[..|a + b| - 1] == a + f;
      SortedParts(le, a, f);
      MergedAssoc(le, Sorted(le, a), Sorted(le, f), l);
    }
  }

  lemma {:induction false} MergedNone(le: Order, a: seq<nat>)
    ensures Merged(le, a, []) == a && Merged(le, [], a) == a
  {
  }

  lemma {:induction false} SortedOne(le: Order, x: nat)
    ensures Sorted(le, [x]) == [x] && Sorted(le, []) == []
  {
    assert [x][..0] == [];
  }

  lemma {:induction false} MergedMembers(le: Order, a: seq<nat>, b: seq<nat>)
    ensures multiset(Merged(le, a, b)) == multiset(a) + multiset(b)
    ensures |Merged(le, a, b)| == |a| + |b| && forall x :: x in Merged(le, a, b) <==> x in a || x in b
    decreases |a| + |b|
  {
    if a != [] && b != [] {
      if le(a[0], b[0]) {
        assert a == [a[0]] + a[1..];
        MergedMembers(le, a[1..], b);
      } else {
        assert b == [b[0]] + b[1..];
        MergedMembers(le, a, b[1..]);
      }
    }
  }

  lemma {:induction false} SortedMembers(le: Order, s: seq<nat>)
    ensures multiset(Sorted(le, s)) == multiset(s) && |Sorted(le, s)| == |s| && forall x :: x in Sorted(le, s) <==>
      x in s
  {
    hide Merged;
    if s != [] {
      var f, l := s[..|s| - 1], [s[|s| - 1]];
      assert s == f + l;
      SortedMembers(le, f);
      MergedMembers(le, Sorted(le, f), l);
    }
  }

  lemma {:induction false} MergedInOrder(le: Order, a: seq<nat>, b: seq<nat>)
    requires TotalPreorder(le) && InOrder(le, a) && InOrder(le, b)
    ensures InOrder(le, Merged(le, a, b))
    decreases |a| + |b|
  {
    if a != [] && b != [] {
      if le(a[0], b[0]) {
        MergedInOrder(le, a[1..], b);
        MergedMembers(le, a[1..], b);
        Least(le, a[0], a[1..], b);
        ConsInOrder(le, a[0], Merged(le, a[1..], b));
      } else {
        MergedInOrder(le, a, b[1..]);
        MergedMembers(le, a, b[1..]);
        Least(le, b[0], b[1..], a);
        ConsInOrder(le, b[0], Merged(le, a, b[1..]));
      }
    }
  }

  lemma {:induction false} Least(le: Order, x: nat, a: seq<nat>, b: seq<nat>)
    requires TotalPreorder(le) && InOrder(le, [x] + a) && InOrder(le, b) && b != [] && le(x, b[0])
    ensures forall y | y in a || y in b :: le(x, y)
  {
    forall y | y in a ensures le(x, y) {
      var i :| 0 <= i < |a| && a[i] == y;
      assert ([x] + a)[0] == x && ([x] + a)[i + 1] == y;
    }
    forall y | y in b ensures le(x, y) {
      var i :| 0 <= i < |b| && b[i] == y;
      assert i > 0 ==> le(b[0], b[i]);
    }
  }

  lemma {:induction false} ConsInOrder(le: Order, x: nat, s: seq<nat>)
    requires InOrder(le, s) && forall y | y in s :: le(x, y)
    ensures InOrder(le, [x] + s)
  {
    var t := [x] + s;
    forall i, j | 0 <= i < j < |t| ensures le(t[i], t[j]) {
      assert t[j] == s[j - 1] && t[j] in s;
      if i > 0 { assert t[i] == s[i - 1]; }
    }
  }

  lemma {:induction false} EqualsCons(le: Order, x: nat, s: seq<nat>, z: nat)
    ensures Equals(le, [x] + s, z) == (if le(x, z) && le(z, x) then [x] else []) + Equals(le, s, z)
  {
    assert ([x] + s)[1..] == s;
  }

  lemma {:induction false} EqualsNone(le: Order, z: nat)
    ensures Equals(le, [], z) == []
  {
  }

  lemma {:induction false} MergedIs(le: Order, a: seq<nat>, b: seq<nat>)
    ensures (a == [] ==> Merged(le, a, b) == b) && (b == [] ==> Merged(le, a, b) == a)
    ensures a != [] && b != [] ==>
      Merged(le, a, b) == if le(a[0], b[0]) then [a[0]] + Merged(le, a[1..], b) else [b[0]] + Merged(le, a, b[1..])
  {
  }

  lemma {:induction false} TailInOrder(le: Order, a: seq<nat>)
    requires InOrder(le, a) && a != []
    ensures InOrder(le, a[1..]) && [a[0]] + a[1..] == a
  {
  }

  /** Merging keeps equal entries in order, those of the first list first. */
  lemma {:induction false} MergedEquals(le: Order, a: seq<nat>, b: seq<nat>, z: nat)
    requires TotalPreorder(le) && InOrder(le, a)
    ensures Equals(le, Merged(le, a, b), z) == Equals(le, a, z) + Equals(le, b, z)
    decreases |a| + |b|
  {
    hide TotalPreorder, InOrder, Merged, Equals;
    MergedIs(le, a, b);
    EqualsNone(le, z);
    if a != [] && b != [] {
      TailInOrder(le, a);
      if le(a[0], b[0]) {
        MergedEquals(le, a[1..], b, z);
        EqualsCons(le, a[0], a[1..], z);
        EqualsCons(le, a[0], Merged(le, a[1..], b), z);
      } else {
        assert [b[0]] + b[1..] == b;
        MergedEquals(le, a, b[1..], z);
        EqualsCons(le, b[0], b[1..], z);
        EqualsCons(le, b[0], Merged(le, a, b[1..]), z);
        if le(b[0], z) && le(z, b[0]) {
          NoneEqual(le, a, z, b[0]);
        }
      }
    }
  }

  lemma {:induction false} NoneEqual(le: Order, a: seq<nat>, z: nat, y: nat)
    requires TotalPreorder(le) && InOrder(le, a) && (a != [] ==> !le(a[0], y)) && le(z, y)
    ensures Equals(le, a, z) == []
  {
    if a != [] {
      if a[1..] != [] {
        assert le(a[0], a[1]);
      }
      NoneEqual(le, a[1..], z, y);
    }
  }

  /** `Sorted` is what its name says: the same entries, in order, equal ones as they were. */
  lemma {:induction false} SortedIsStable(le: Order, s: seq<nat>)
    requires TotalPreorder(le)
    ensures multiset(Sorted(le, s)) == multiset(s) && InOrder(le, Sorted(le, s))
    ensures forall z :: Equals(le, Sorted(le, s), z) == Equals(le, s, z)
  {
    SortedMembers(le, s);
    SortedInOrder(le, s);
    forall z ensures Equals(le, Sorted(le, s), z) == Equals(le, s, z) {
      SortedEquals(le, s, z);
    }
  }

  lemma {:induction false} SortedInOrder(le: Order, s: seq<nat>)
    requires TotalPreorder(le)
    ensures InOrder(le, Sorted(le, s))
  {
    hide Merged, TotalPreorder;
    if s != [] {
      SortedInOrder(le, s[..|s| - 1]);
      MergedInOrder(le, Sorted(le, s[..|s| - 1]), [s[|s| - 1]]);
    }
  }

  lemma {:induction false} SortedEquals(le: Order, s: seq<nat>, z: nat)
    requires TotalPreorder(le)
    ensures Equals(le, Sorted(le, s), z) == Equals(le, s, z)
  {
    hide Merged, TotalPreorder, InOrder;
    if s != [] {
      var f, l := s[..|s| - 1], [s[|s| - 1]];
      SortedEquals(le, f, z);
      SortedInOrder(le, f);
      MergedEquals(le, Sorted(le, f), l, z);
      assert s == f + l;
      EqualsSplit(le, f, l, z);
    }
  }

  lemma {:induction false} EqualsSplit(le: Order, a: seq<nat>, b: seq<nat>, z: nat)
    ensures Equals(le, a + b, z) == Equals(le, a, z) + Equals(le, b, z)
  {
    if a == [] {
      assert a + b == b;
    } else {
      assert (a + b)[1..] == a[1..] + b;
      EqualsSplit(le, a[1..], b, z);
    }
  }

  lemma {:induction false} SortedNoDup(le: Order, s: seq<nat>)
    requires NoDup(s)
    ensures NoDup(Sorted(le, s))
  {
    SortedMembers(le, s);
    NoDupCounts(s);
    CountsNoDup(Sorted(le, s));
  }

  lemma {:induction false} NoDupCounts(s: seq<nat>)
    requires NoDup(s)
    ensures forall x :: multiset(s)[x] <= 1
  {
    if s != [] {
      assert s == [s[0]] + s[1..];
      NoDupCounts(s[1..]);
      assert s[0] !in s[1..];
    }
  }

  lemma {:induction false} CountsNoDup(s: seq<nat>)
    requires forall x :: multiset(s)[x] <= 1
    ensures NoDup(s)
  {
    forall i, j | 0 <= i < j < |s| ensures s[i] != s[j] {
      assert s == s[..j] + [s[j]] + s[j + 1..];
      assert s[i] in s[..j];
      assert multiset(s)[s[j]] == multiset(s[..j])[s[j]] + 1 + multiset(s[j + 1..])[s[j]];
    }
  }
}
