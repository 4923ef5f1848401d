/**
 The links of the cache of user-test/lib/libx/lru.c: a list that is linked both ways and hash chains
 that are linked one way.  Zero is the null pointer.
 */
module LruLinks {
  import opened Lists

  type Links = map<nat, nat>

  /** The member at a position, null beyond the ends */
  ghost function At(l: seq<nat>, i: int): nat {
    if 0 <= i < |l| then l[i] else 0
  }

  /** Following `next` from `first` gives `l`. */
  ghost predicate Forward(next: Links, first: nat, l: seq<nat>) {
    && 0 !in l && first == At(l, 0)
    && forall i | 0 <= i < |l| :: l[i] in next && next[l[i]] == At(l, i + 1)
  }

  /** Following `prev` from `last` gives `l` backwards. */
  ghost predicate Backward(prev: Links, last: nat, l: seq<nat>) {
    && 0 !in l && last == At(l, |l| - 1)
    && forall i | 0 <= i < |l| :: l[i] in prev && prev[l[i]] == At(l, i - 1)
  }

  /** The list as its head, its tail and the links of its items give it */
  ghost predicate TwoWay(next: Links, prev: Links, head: nat, tail: nat, l: seq<nat>) {
    Forward(next, head, l) && Backward(prev, tail, l)
  }

  /** The chains of the table */
  ghost predicate Chains(hnext: Links, slots: seq<nat>, table: seq<seq<nat>>) {
    |slots| == |table| && forall h | 0 <= h < |table| :: Forward(hnext, slots[h], table[h])
  }

  ghost function Taken(l: seq<nat>, i: nat): (t: seq<nat>)
    requires i < |l|
    ensures |t| == |l| - 1
  {
    l[..i] + l[i + 1..]
  }

  lemma {:induction false} TakenAt(l: seq<nat>, i: nat, j: int)
    requires i < |l|
    ensures At(Taken(l, i), j) == At(l, if j < i then j else j + 1)
  {
  }

  lemma {:induction false} Differ(l: seq<nat>, i: nat, j: nat)
    requires NoDup(l) && 0 !in l && i < |l| && j < |l|
    ensures l[i] != 0 && (l[i] == l[j] <==> i == j)
  {
  }

  lemma {:induction false} TakenNonNull(l: seq<nat>, i: nat)
    requires i < |l| && 0 !in l
    ensures 0 !in Taken(l, i)
  {
  }

  /** The link of `before`, or the pointer to the first item where there is none before, leads on past the item. */
  lemma {:induction false} ForwardUnlinked(next: Links, first: nat, l: seq<nat>, i: nat)
    requires Forward(next, first, l) && NoDup(l) && i < |l|
    ensures l[i] in next && (i > 0 ==> At(l, i - 1) == l[i - 1]) && (At(l, i - 1) == 0 <==> i == 0)
      && (first == l[i] <==> i == 0)
    ensures i == 0 ==> Forward(next, next[l[i]], Taken(l, i))
    ensures i > 0 ==> Forward(next[l[i - 1] := next[l[i]]], first, Taken(l, i))
  {
    hide Taken, NoDup;
    var t := Taken(l, i);
    Differ(l, 0, i);
    if i > 0 { Differ(l, i - 1, i); }
    var n := if i == 0 then next else next[l[i - 1] := next[l[i]]];
    TakenNonNull(l, i);
    TakenAt(l, i, 0);
    forall j | 0 <= j < |t| ensures t[j] in n && n[t[j]] == At(t, j + 1) {
      TakenAt(l, i, j);
      TakenAt(l, i, j + 1);
      if i > 0 { Differ(l, if j < i then j else j + 1, i - 1); }
    }
  }

  lemma {:induction false} BackwardLast(prev: Links, last: nat, l: seq<nat>)
    requires Backward(prev, last, l) && |l| > 0
    ensures l[|l| - 1] in prev && Backward(prev, prev[l[|l| - 1]], Taken(l, |l| - 1))
  {
    assert Taken(l, |l| - 1) == l[..|l| - 1];
  }

  lemma {:induction false} BackwardInner(prev: Links, last: nat, l: seq<nat>, i: nat)
    requires Backward(prev, last, l) && NoDup(l) && i < |l| - 1
    ensures l[i] in prev && Backward(prev[l[i + 1] := prev[l[i]]], last, Taken(l, i))
  {
    hide Taken, NoDup;
    var t, p := Taken(l, i), prev[l[i + 1] := prev[l[i]]];
    TakenNonNull(l, i);
    TakenAt(l, i, |t| - 1);
    forall j | 0 <= j < |t| ensures t[j] in p && p[t[j]] == At(t, j - 1) {
      TakenAt(l, i, j);
      TakenAt(l, i, j - 1);
      Differ(l, if j < i then j else j + 1, i + 1);
    }
  }

  lemma {:induction false} BackwardUnlinked(prev: Links, last: nat, l: seq<nat>, i: nat)
    requires Backward(prev, last, l) && NoDup(l) && i < |l|
    ensures l[i] in prev && (At(l, i + 1) == 0 <==> i == |l| - 1) && (last == l[i] <==> i == |l| - 1)
    ensures i == |l| - 1 ==> Backward(prev, prev[l[i]], Taken(l, i))
    ensures i < |l| - 1 ==> Backward(prev[l[i + 1] := prev[l[i]]], last, Taken(l, i))
  {
    hide Taken, NoDup;
    Differ(l, i, |l| - 1);
    if i < |l| - 1 {
      Differ(l, i + 1, i);
      BackwardInner(prev, last, l, i);
    } else {
      BackwardLast(prev, last, l);
    }
  }

  lemma {:induction false} ForwardPushed(next: Links, first: nat, l: seq<nat>, x: nat)
    requires Forward(next, first, l) && x !in l && x != 0
    ensures Forward(next[x := first], x, [x] + l)
  {
    var t, n := [x] + l, next[x := first];
    forall j | 0 <= j < |t| ensures t[j] in n && n[t[j]] == At(t, j + 1) {
      if j > 0 { assert t[j] == l[j - 1] && l[j - 1] in l; }
    }
  }

  lemma {:induction false} BackwardPushed(prev: Links, last: nat, l: seq<nat>, x: nat)
    requires Backward(prev, last, l) && NoDup(l) && x !in l && x != 0
    ensures l == [] ==> last == 0 && Backward(prev[x := 0], x, [x] + l)
    ensures l != [] ==> last != 0 && Backward(prev[x := 0][l[0] := x], last, [x] + l)
  {
    var t, p := [x] + l, if l == [] then prev[x := 0] else prev[x := 0][l[0] := x];
    forall j | 0 <= j < |t| ensures t[j] in p && p[t[j]] == At(t, j - 1) {
      if j > 0 { assert t[j] == l[j - 1] && l[j - 1] in l; }
    }
    if l != [] { assert l[|l| - 1] in l; }
  }

  lemma {:induction false} ForwardElsewhere(next: Links, first: nat, l: seq<nat>, x: nat, y: nat)
    requires Forward(next, first, l) && x !in l
    ensures Forward(next[x := y], first, l)
  {
    forall j | 0 <= j < |l| ensures l[j] in next[x := y] && next[x := y][l[j]] == At(l, j + 1) {
      assert l[j] in l;
    }
  }

  /** No item is in two chains. */
  ghost predicate ApartChains(table: seq<seq<nat>>) {
    forall g, h | 0 <= g < |table| && 0 <= h < |table| && g != h :: forall x | x in table[g] :: x !in table[h]
  }

  /** The removal of `lru_hash_remove` */
  lemma {:induction false} ChainUnlinked(hnext: Links, slots: seq<nat>, table: seq<seq<nat>>, h: nat, i: nat)
    requires Chains(hnext, slots, table) && ApartChains(table) && h < |table| && i < |table[h]| && NoDup(table[h])
    ensures table[h][i] in hnext
    ensures var l := table[h]; var x, t := l[i], table[h := Taken(l, i)];
      && (i == 0 ==> Chains(hnext[x := 0], slots[h := hnext[x]], t))
      && (i > 0 ==> Chains(hnext[x := 0][l[i - 1] := hnext[x]], slots, t))
  {
    hide Forward;
    var l := table[h];
    var x, t := l[i], table[h := Taken(l, i)];
    ForwardUnlinked(hnext, slots[h], l, i);
    assert l == l[..i] + [x] + l[i + 1..];
    NoDupParts(l[..i], x, l[i + 1..]);
    var n := if i == 0 then hnext[x := 0] else hnext[x := 0][l[i - 1] := hnext[x]];
    var s := if i == 0 then slots[h := hnext[x]] else slots;
    forall g | 0 <= g < |t| ensures Forward(n, s[g], t[g]) {
      if g == h {
        if i == 0 {
          ForwardElsewhere(hnext, hnext[x], Taken(l, i), x, 0);
        } else {
          assert l[i - 1] != x;
          assert n == hnext[l[i - 1] := hnext[x]][x := 0];
          ForwardElsewhere(hnext[l[i - 1] := hnext[x]], slots[h], Taken(l, i), x, 0);
        }
      } else {
        assert x in table[h] && x !in table[g];
        ForwardElsewhere(hnext, slots[g], table[g], x, 0);
        if i > 0 {
          assert l[i - 1] in table[h] && l[i - 1] !in table[g];
          ForwardElsewhere(hnext[x := 0], slots[g], table[g], l[i - 1], hnext[x]);
        }
      }
    }
  }

  /** `lru_hash_insert` */
  lemma {:induction false} ChainPushed(hnext: Links, slots: seq<nat>, table: seq<seq<nat>>, h: nat, x: nat)
    requires Chains(hnext, slots, table) && h < |table| && x != 0 && forall g | 0 <= g < |table| :: x !in table[g]
    ensures Chains(hnext[x := slots[h]], slots[h := x], table[h := [x] + table[h]])
  {
    hide Forward;
    ForwardPushed(hnext, slots[h], table[h], x);
    forall g | 0 <= g < |table| && g != h ensures Forward(hnext[x := slots[h]], slots[g], table[g]) {
      ForwardElsewhere(hnext, slots[g], table[g], x, slots[h]);
    }
  }

  /** The unlinking of `lru_remove_item_hv` */
  lemma {:induction false} ListUnlinked(next: Links, prev: Links, head: nat, tail: nat, l: seq<nat>, i: nat)
    requires TwoWay(next, prev, head, tail, l) && NoDup(l) && i < |l|
    ensures l[i] in next && l[i] in prev
    ensures var x := l[i];
      TwoWay(if prev[x] != 0 then next[prev[x] := next[x]] else next,
             if next[x] != 0 then prev[next[x] := prev[x]] else prev,
             if head == x then next[x] else head, if tail == x then prev[x] else tail, Taken(l, i))
  {
    ForwardUnlinked(next, head, l, i);
    BackwardUnlinked(prev, tail, l, i);
  }

  /** The linking of `lru_set` */
  lemma {:induction false} ListPushed(next: Links, prev: Links, head: nat, tail: nat, l: seq<nat>, x: nat)
    requires TwoWay(next, prev, head, tail, l) && NoDup(l) && x !in l && x != 0
    ensures TwoWay(next[x := head], if head != 0 then prev[x := 0][head := x] else prev[x := 0],
                   x, if tail == 0 then x else tail, [x] + l)
  {
    ForwardPushed(next, head, l, x);
    BackwardPushed(prev, tail, l, x);
    if l != [] { assert l[0] in l; }
  }

  lemma {:induction false} ChainFacts(hnext: Links, slots: seq<nat>, table: seq<seq<nat>>, h: nat)
    requires Chains(hnext, slots, table) && h < |table|
    ensures |slots| == |table| && slots[h] == At(table[h], 0) && 0 !in table[h]
    ensures forall i | 0 <= i < |table[h]| :: table[h][i] in hnext && hnext[table[h][i]] == At(table[h], i + 1)
  {
  }

  lemma {:induction false} TailFacts(next: Links, prev: Links, head: nat, tail: nat, l: seq<nat>)
    requires TwoWay(next, prev, head, tail, l)
    ensures tail == At(l, |l| - 1) && 0 !in l && (l != [] ==> tail in prev && prev[tail] == At(l, |l| - 2))
  {
  }
}
