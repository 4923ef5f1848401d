/**
 Lists as the kernel uses them: entries are distinct, are added at an end and removed from anywhere.
 */
module Lists {

  ghost predicate NoDup<T>(s: seq<T>) {
    forall i, j | 0 <= i < j < |s| :: s[i] != s[j]
  }

  /** The list without the first occurrence of `x`. */
  function Without<T(==)>(s: seq<T>, x: T): seq<T> {
    if s == [] then [] else if s[0] == x then s[1..] else [s[0]] + Without(s[1..], x)
  }

  lemma {:induction false} WithoutAt<T>(a: seq<T>, x: T, b: seq<T>)
    requires x !in a
    ensures Without(a + [x] + b, x) == a + b
  {
    var s := a + [x] + b;
    if a == [] {
      assert s[1..] == b;
    } else {
      assert s[1..] == a[1..] + [x] + b;
      WithoutAt(a[1..], x, b);
    }
  }

  /** Removing an entry of a list of distinct entries removes exactly that entry. */
  lemma {:induction false} WithoutMembers<T>(s: seq<T>, x: T)
    requires NoDup(s) && x in s
    ensures NoDup(Without(s, x)) && |Without(s, x)| == |s| - 1
    ensures forall y :: y in Without(s, x) <==> y in s && y != x
  {
    hide Without;
    var k :| 0 <= k < |s| && s[k] == x;
    var a, b := s[..k], s[k + 1..];
    assert s == a + [x] + b;
    NoDupParts(a, x, b);
    WithoutAt(a, x, b);
  }

  lemma {:induction false} NoDupParts<T>(a: seq<T>, x: T, b: seq<T>)
    requires NoDup(a + [x] + b)
    ensures x !in a && x !in b && NoDup(a + b)
    ensures forall y :: y in a + b <==> y in a + [x] + b && y != x
  {
    var s, q, k := a + [x] + b, a + b, |a|;
    assert s[k] == x;
    forall i | 0 <= i < |a| ensures a[i] != x { assert s[i] == a[i]; }
    forall i | 0 <= i < |b| ensures b[i] != x { assert s[k + 1 + i] == b[i]; }
    forall i, j | 0 <= i < j < |q| ensures q[i] != q[j] {
      var i', j' := if i < k then i else i + 1, if j < k then j else j + 1;
      assert q[i] == s[i'] && q[j] == s[j'];
    }
  }

  lemma {:induction false} NoDupAdd<T>(s: seq<T>, x: T)
    requires NoDup(s) && x !in s
    ensures NoDup(s + [x]) && NoDup([x] + s)
  {
  }

  /** The numbers below `n`. */
  ghost function Below(n: nat): (r: set<nat>)
    ensures |r| == n && forall x :: x in r <==> 0 <= x < n
  {
    if n == 0 then {} else Below(n - 1) + {n - 1}
  }

  lemma {:induction false} SubsetSize<T>(a: set<T>, b: set<T>)
    requires a <= b
    ensures |a| <= |b|
    decreases a
  {
    if a != {} {
      var x :| x in a;
      SubsetSize(a - {x}, b - {x});
    }
  }

  lemma {:induction false} NoDupSet<T>(s: seq<T>) returns (r: set<T>)
    requires NoDup(s)
    ensures |r| == |s| && forall x :: x in r <==> x in s
  {
    if s == [] {
      r := {};
    } else {
      var t := NoDupSet(s[1..]);
      assert forall x :: x in s <==> x == s[0] || x in s[1..];
      r := t + {s[0]};
    }
  }

  /** Distinct numbers below `n` are at most `n` many. */
  lemma {:induction false} Pigeonhole(s: seq<nat>, n: nat)
    requires NoDup(s) && forall x | x in s :: x < n
    ensures |s| <= n
  {
    var r := NoDupSet(s);
    SubsetSize(r, Below(n));
  }
}
