/**
 The list sort of lib/lsort.c: lists of doubling length wait in an array of slots, as the digits of
 a binary counter, and are merged by relinking their nodes; the last merge also restores the links
 back.  A node is known by its address, and zero is no node.
 */
module Lsort {
  import opened Lists
  import opened StableSort

  type Links = map<nat, nat>

  const SLOTS: nat := 21

  /** The node after entry `i`, zero after the last */
  ghost function After(s: seq<nat>, i: nat): nat {
    if i + 1 < |s| then s[i + 1] else 0
  }

  /** The list `s` starts at `p` and ends with no node. */
  ghost predicate Chain(next: Links, p: nat, s: seq<nat>) {
    && p == (if s == [] then 0 else s[0])
    && (forall i | 0 <= i < |s| :: s[i] != 0 && s[i] in next)
    && (forall i | 0 <= i < |s| :: next[s[i]] == After(s, i))
  }

  /** The nodes follow each other; where the last one leads is open. */
  ghost predicate Linked(next: Links, s: seq<nat>) {
    && (forall i | 0 <= i < |s| :: s[i] != 0 && s[i] in next)
    && (forall i | 0 <= i < |s| - 1 :: next[s[i]] == s[i + 1])
  }

  ghost predicate BackLinked(prev: Links, s: seq<nat>) {
    && (forall i | 0 <= i < |s| :: s[i] in prev)
    && (forall i | 0 < i < |s| :: prev[s[i]] == s[i - 1])
  }

  /** The ring of the kernel's doubly linked lists: `h` and then the entries */
  ghost predicate Ring(next: Links, prev: Links, h: nat, s: seq<nat>) {
    && NoDup([h] + s) && Linked(next, [h] + s) && BackLinked(prev, [h] + s)
    && h in prev && (var last := ([h] + s)[|s|]; next[last] == h && prev[h] == last)
  }

  /** Nothing but the nodes of a set was relinked. */
  ghost predicate Only(a: Links, b: Links, touched: seq<nat>) {
    a.Keys == b.Keys && forall x | x in a && x !in touched :: x in b && a[x] == b[x]
  }

  lemma {:induction false} ChainKept(a: Links, b: Links, touched: seq<nat>, p: nat, s: seq<nat>)
    requires Chain(a, p, s) && Only(a, b, touched) && forall x | x in s :: x !in touched
    ensures Chain(b, p, s)
  {
    forall i | 0 <= i < |s| ensures s[i] in b && b[s[i]] == a[s[i]] {
      assert s[i] in s;
    }
  }

  lemma {:induction false} ChainTail(next: Links, p: nat, s: seq<nat>)
    requires Chain(next, p, s)
    ensures p == 0 <==> s == []
    ensures p != 0 ==> p in next && s == [p] + s[1..] && Chain(next, next[p], s[1..])
  {
    if s != [] {
      assert next[s[0]] == After(s, 0);
      forall i | 0 <= i < |s[1..]| ensures s[1..][i] == s[i + 1] && next[s[i + 1]] == After(s[1..], i) {
        assert next[s[i + 1]] == After(s, i + 1);
      }
    }
  }

  /** A node is put at the end of what has been merged. */
  lemma {:induction false} LinkedMore(next: Links, d: seq<nat>, x: nat)
    requires d != [] && Linked(next, d) && NoDup(d + [x]) && x != 0 && x in next
    ensures Linked(next[d[|d| - 1] := x], d + [x])
  {
    var n := next[d[|d| - 1] := x];
    forall i | 0 <= i < |d| ensures n[(d + [x])[i]] == (d + [x])[i + 1] {
      if i < |d| - 1 {
        assert (d + [x])[i] != (d + [x])[|d| - 1];
      }
    }
  }

  /** What is left of one list is put at the end. */
  lemma {:induction false} LinkedRest(next: Links, d: seq<nat>, p: nat, r: seq<nat>)
    requires d != [] && Linked(next, d) && Chain(next, p, r) && NoDup(d + r)
    ensures var n := next[d[|d| - 1] := p];
      && Linked(n, d + r) && n[(d + r)[|d + r| - 1]] == 0
      && Chain(n, (d + r + [0])[1], (d + r)[1..])
  {
    var n, t := next[d[|d| - 1] := p], d + r;
    forall i | 0 <= i < |t| ensures t[i] != 0 && t[i] in n && n[t[i]] == After(t, i) {
      if i < |d| {
        assert t[i] == d[i];
        if i < |d| - 1 { assert t[i] != t[|d| - 1]; }
      } else {
        assert t[i] == r[i - |d|] && t[i] != t[|d| - 1] && next[r[i - |d|]] == After(r, i - |d|);
      }
    }
    assert n[t[|t| - 1]] == After(t, |t| - 1);
    forall i | 0 <= i < |t[1..]| ensures t[1..][i] == t[i + 1] && n[t[1..][i]] == After(t[1..], i) {
      assert n[t[i + 1]] == After(t, i + 1);
    }
  }

  /** The nodes that are being merged: what is done, and what is left of the two lists */
  ghost predicate Merging(next: Links, le: Order, h: nat, tail: nat, a: nat, b: nat, d: seq<nat>, ra: seq<nat>,
                          rb: seq<nat>, whole: seq<nat>) {
    && Linked(next, [h] + d) && tail == ([h] + d)[|d|] && Chain(next, a, ra) && Chain(next, b, rb)
    && NoDup([h] + d + ra + rb) && d + Merged(le, ra, rb) == whole
  }

  /** The first node of one of the two lists is moved. */
  lemma {:induction false} MoveFirst(next: Links, le: Order, h: nat, tail: nat, a: nat, b: nat, d: seq<nat>,
                                     ra: seq<nat>, rb: seq<nat>, whole: seq<nat>)
    requires Merging(next, le, h, tail, a, b, d, ra, rb, whole) && a != 0 && b != 0
    ensures ra != [] && rb != [] && a == ra[0] && b == rb[0] && tail in next && a in next && b in next
    ensures le(a, b) ==> var n := next[tail := a]; Merging(n, le, h, a, n[a], b, d + [a], ra[1..], rb, whole)
    ensures !le(a, b) ==> var n := next[tail := b]; Merging(n, le, h, b, a, n[b], d + [b], ra, rb[1..], whole)
  {
    hide NoDup, Merged, Linked;
    ChainTail(next, a, ra);
    ChainTail(next, b, rb);
    MergedFirst(le, ra, rb);
    TailIn(next, [h] + d);
    if le(a, b) {
      MovedOne(next, h, d, a, ra[1..], rb);
      assert [h] + d + ra + rb == [h] + d + [a] + ra[1..] + rb;
      ChainKept(next, next[tail := a], [tail], b, rb);
      ChainKept(next, next[tail := a], [tail], next[a], ra[1..]);
      assert d + Merged(le, ra, rb) == d + [a] + Merged(le, ra[1..], rb);
    } else {
      assert [h] + d + ra + rb == [h] + d + ra + ([b] + rb[1..]);
      MovedTwo(next, h, d, b, ra, rb[1..]);
      ChainKept(next, next[tail := b], [tail], a, ra);
      ChainKept(next, next[tail := b], [tail], next[b], rb[1..]);
      assert d + Merged(le, ra, rb) == d + [b] + Merged(le, ra, rb[1..]);
    }
  }

  lemma {:induction false} MergedFirst(le: Order, a: seq<nat>, b: seq<nat>)
    requires a != [] && b != []
    ensures Merged(le, a, b) == if le(a[0], b[0]) then [a[0]] + Merged(le, a[1..], b)
      else [b[0]] + Merged(le, a, b[1..])
  {
  }

  lemma {:induction false} TailIn(next: Links, d: seq<nat>)
    requires Linked(next, d) && d != []
    ensures d[|d| - 1] in next
  {
  }

  lemma {:induction false} MovedOne(next: Links, h: nat, d: seq<nat>, a: nat, ra: seq<nat>, rb: seq<nat>)
    requires NoDup([h] + d + ([a] + ra) + rb) && Linked(next, [h] + d) && a != 0 && a in next
    ensures var t := ([h] + d)[|d|];
      && t != a && t !in ra && t !in rb && Linked(next[t := a], [h] + (d + [a])) && NoDup([h] + (d + [a]) + ra + rb)
  {
    var all := [h] + d + ([a] + ra) + rb;
    var t := ([h] + d)[|d|];
    assert all == [h] + (d + [a]) + ra + rb;
    assert all[|d|] == t && all[|d| + 1] == a;
    forall i | 0 <= i < |ra| ensures ra[i] != t { assert all[|d| + 2 + i] == ra[i]; }
    forall i | 0 <= i < |rb| ensures rb[i] != t { assert all[|d| + 2 + |ra| + i] == rb[i]; }
    var e := [h] + d;
    assert NoDup(e + [a]) by {
      forall i, j | 0 <= i < j < |e + [a]| ensures (e + [a])[i] != (e + [a])[j] {
        assert all[i] == (e + [a])[i] && all[j] == (e + [a])[j];
      }
    }
    LinkedMore(next, e, a);
    assert e + [a] == [h] + (d + [a]);
  }

  lemma {:induction false} MovedTwo(next: Links, h: nat, d: seq<nat>, b: nat, ra: seq<nat>, rb: seq<nat>)
    requires NoDup([h] + d + ra + ([b] + rb)) && Linked(next, [h] + d) && b != 0 && b in next
    ensures var t := ([h] + d)[|d|];
      && t != b && t !in ra && t !in rb && Linked(next[t := b], [h] + (d + [b])) && NoDup([h] + (d + [b]) + ra + rb)
  {
    var x, y := [h] + d + ra + ([b] + rb), [h] + d + ([b] + rb) + ra;
    forall i, j | 0 <= i < j < |y| ensures y[i] != y[j] {
      var m, n := |d| + 1, |d| + 1 + |rb| + 1;
      var i' := if i < m then i else if i < n then i + |ra| else i - |rb| - 1;
      var j' := if j < m then j else if j < n then j + |ra| else j - |rb| - 1;
      assert y[i] == x[i'] && y[j] == x[j'] && i' != j';
    }
    MovedOne(next, h, d, b, rb, ra);
    var u, v := [h] + (d + [b]) + rb + ra, [h] + (d + [b]) + ra + rb;
    forall i, j | 0 <= i < j < |v| ensures v[i] != v[j] {
      var m, n := |d| + 2, |d| + 2 + |ra|;
      var i' := if i < m then i else if i < n then i + |rb| else i - |ra|;
      var j' := if j < m then j else if j < n then j + |rb| else j - |ra|;
      assert v[i] == u[i'] && v[j] == u[j'] && i' != j';
    }
  }

  /** One of the lists is used up: the other follows. */
  lemma {:induction false} MergeDone(next: Links, le: Order, h: nat, tail: nat, a: nat, b: nat, d: seq<nat>,
                                     ra: seq<nat>, rb: seq<nat>, whole: seq<nat>)
    requires Merging(next, le, h, tail, a, b, d, ra, rb, whole) && (a == 0 || b == 0)
    ensures var n, r := next[tail := if a != 0 then a else b], if a != 0 then ra else rb;
      && d + r == whole && NoDup([h] + whole) && tail in next && Linked(n, [h] + whole) && h in n
         && Chain(n, n[h], whole)
  {
    hide Merged, Linked, Chain, NoDup;
    ChainTail(next, a, ra);
    ChainTail(next, b, rb);
    TailIn(next, [h] + d);
    MergedNone(le, ra);
    MergedNone(le, rb);
    var p, r := if a != 0 then a else b, if a != 0 then ra else rb;
    assert [h] + d + ra + rb == [h] + d + r;
    assert [h] + d + r == [h] + whole;
    LinkedRest(next, [h] + d, p, r);
    assert ([h] + whole)[1..] == whole;
    HeadLeads(next[tail := p], h, whole);
  }

  lemma {:induction false} HeadLeads(next: Links, h: nat, s: seq<nat>)
    requires Linked(next, [h] + s) && next[([h] + s)[|s|]] == 0
    ensures h in next && next[h] == ([h] + s + [0])[1]
  {
    assert next[([h] + s)[0]] == ([h] + s + [0])[1];
  }

  lemma {:induction false} MergeStart(next: Links, le: Order, h: nat, a: nat, b: nat, sa: seq<nat>, sb: seq<nat>)
    requires Chain(next, a, sa) && Chain(next, b, sb) && NoDup([h] + sa + sb) && h != 0 && h in next
    ensures Merging(next, le, h, h, a, b, [], sa, sb, Merged(le, sa, sb))
  {
    hide Merged;
    assert [h] + [] + sa + sb == [h] + sa + sb;
  }

  class ListHeads {
    var next: Links
    var prev: Links

    /** `merge`; `h` is the list head on its stack. */
    method Merge(le: Order, h: nat, a0: nat, b0: nat, ghost sa: seq<nat>, ghost sb: seq<nat>) returns (r: nat)
      requires Chain(next, a0, sa) && Chain(next, b0, sb) && NoDup([h] + sa + sb) && h != 0 && h in next
      modifies this`next
      ensures Chain(next, r, Merged(le, sa, sb)) && Only(old(next), next, [h] + sa + sb)
    {
      hide Merged, Chain, Linked, NoDup, Merging, Only;
      var a, b, tail := a0, b0, h;
      ghost var d: seq<nat>, ra, rb, whole := [], sa, sb, Merged(le, sa, sb);
      MergeStart(next, le, h, a, b, sa, sb);
      OnlySelf(next, [h] + sa + sb);
      while a != 0 && b != 0
        invariant Merging(next, le, h, tail, a, b, d, ra, rb, whole) && Only(old(next), next, [h] + sa + sb)
        invariant tail in [h] + sa + sb && (forall x | x in ra :: x in sa) && (forall x | x in rb :: x in sb)
        decreases |ra| + |rb|
      {
        MoveFirst(next, le, h, tail, a, b, d, ra, rb, whole);
        if le(a, b) {
          OnlyMore(old(next), next, [h] + sa + sb, tail, a);
          assert a in ra && a in sa;
          next := next[tail := a];
          d, ra, tail := d + [a], ra[1..], a;
          a := next[a];
        } else {
          OnlyMore(old(next), next, [h] + sa + sb, tail, b);
          assert b in rb && b in sb;
          next := next[tail := b];
          d, rb, tail := d + [b], rb[1..], b;
          b := next[b];
        }
      }
      MergeDone(next, le, h, tail, a, b, d, ra, rb, whole);
      OnlyMore(old(next), next, [h] + sa + sb, tail, if a != 0 then a else b);
      HeadIn(next[tail := if a != 0 then a else b], h, whole);
      next := next[tail := if a != 0 then a else b];
      r := next[h];
    }

    /** The second loop of `merge_and_restore_back_links`, from the node at `from` on */
    method BackLinks(start: nat, ghost all: seq<nat>, ghost from: nat) returns (tail: nat)
      requires NoDup(all) && Linked(next, all) && from + 1 < |all| && all[|all| - 1] in next
        && next[all[|all| - 1]] == 0
      requires start == all[from] && BackLinked(prev, all[..from + 1]) && forall x | x in all :: x in prev
      modifies this`prev
      ensures BackLinked(prev, all) && prev.Keys == old(prev).Keys && tail == all[|all| - 1]
    {
      hide Linked, NoDup, BackLinked;
      tail := start;
      ghost var k := from;
      while true
        invariant from <= k < |all| - 1 && tail == all[k] && BackLinked(prev, all[..k + 1])
          && prev.Keys == old(prev).Keys
        decreases |all| - k
      {
        NextIs(next, all, k);
        var n := next[tail];
        assert n in all;
        BackStep(prev, all, k);
        prev := prev[n := tail];
        tail, k := n, k + 1;
        LastOrNot(next, all, k);
        if next[tail] == 0 {
          break;
        }
      }
      assert all[..k + 1] == all;
    }

    /** `merge_and_restore_back_links` */
    method MergeBack(le: Order, h: nat, a0: nat, b0: nat, ghost sa: seq<nat>, ghost sb: seq<nat>)
      requires Chain(next, a0, sa) && Chain(next, b0, sb) && NoDup([h] + sa + sb) && h != 0 && h in next
        && sa + sb != []
      requires forall x | x in [h] + sa + sb :: x in prev
      modifies this`next, this`prev
      ensures Ring(next, prev, h, Merged(le, sa, sb))
    {
      hide Merged, Chain, Linked, NoDup, Merging, Only, BackLinked;
      var a, b, tail := a0, b0, h;
      ghost var d: seq<nat>, ra, rb, whole := [], sa, sb, Merged(le, sa, sb);
      MergeStart(next, le, h, a, b, sa, sb);
      MergedMembers(le, sa, sb);
      BackStart(prev, h);
      ChainTail(next, a, sa);
      ChainTail(next, b, sb);
      while a != 0 && b != 0
        invariant Merging(next, le, h, tail, a, b, d, ra, rb, whole) && BackLinked(prev, [h] + d)
          && prev.Keys == old(prev).Keys
        invariant a != 0 || b != 0
        decreases |ra| + |rb|
      {
        MoveFirst(next, le, h, tail, a, b, d, ra, rb, whole);
        BackMore(next, le, h, tail, a, b, d, ra, rb, whole, prev);
        if le(a, b) {
          next, prev := next[tail := a], prev[a := tail];
          d, ra, tail := d + [a], ra[1..], a;
          a := next[a];
        } else {
          next, prev := next[tail := b], prev[b := tail];
          d, rb, tail := d + [b], rb[1..], b;
          b := next[b];
        }
      }
      MergeDone(next, le, h, tail, a, b, d, ra, rb, whole);
      MergeEnd(next, le, h, tail, a, b, d, ra, rb, whole);
      next := next[tail := if a != 0 then a else b];
      assert ([h] + whole)[..|d| + 1] == [h] + d;
      tail := BackLinks(tail, [h] + whole, |d|);
      RingClosed(next, prev, h, whole);
      next, prev := next[tail := h], prev[h := tail];
    }

    /** The carry: the new list is merged with the slots that are taken, up to the first that is free. */
    method Carry(le: Order, tmp: nat, part0: seq<nat>, cur0: nat, ghost cut: seq<nat>, ghost s: seq<nat>, ghost k: nat)
      returns (part: seq<nat>, lev: nat, cur: nat)
      requires TotalPreorder(le) && NoDup(s) && tmp !in s && tmp != 0 && tmp in next && k < |s|
      requires Slots(next, part0, cut, s, k, le, 0) && Chain(next, cur0, [s[k]])
      modifies this`next
      ensures lev < SLOTS && Slots(next, part, cut, s, k, le, lev) && cut[lev] <= k
        && Chain(next, cur, Sorted(le, s[cut[lev]..k + 1]))
      ensures Only(old(next), next, [tmp] + s[..k + 1])
      ensures part[lev] == 0 && (forall l | 0 <= l < lev :: part[l] == 0 && part0[l] != 0)
        && forall l | lev <= l < SLOTS :: part[l] == part0[l]
    {
      hide Merged, Sorted, Chain, NoDup, Only, TotalPreorder, SlotOk;
      part, lev, cur := part0, 0, cur0;
      assert s[k..k + 1] == [s[k]];
      SortedOne(le, s[k]);
      OnlySelf(next, [tmp] + s[..k + 1]);
      while part[lev] != 0
        invariant lev < SLOTS && Slots(next, part, cut, s, k, le, lev) && cut[lev] <= k
          && Chain(next, cur, Sorted(le, s[cut[lev]..k + 1]))
        invariant Only(old(next), next, [tmp] + s[..k + 1]) && tmp in next
        invariant (forall l | 0 <= l < lev :: part[l] == 0 && part0[l] != 0)
          && forall l | lev <= l < SLOTS :: part[l] == part0[l]
        decreases SLOTS - lev
      {
        ghost var i, j, before := cut[lev + 1], cut[lev], next;
        CarryStep(next, part, cut, s, k, le, lev, tmp);
        cur := Merge(le, tmp, part[lev], cur, Sorted(le, s[i..j]), Sorted(le, s[j..k + 1]));
        CarryKeeps(old(next), before, next, part, cut, s, k, le, lev, tmp);
        part := part[lev := 0];
        lev := lev + 1;
      }
    }

    /** The first loop of `lsort`: every entry is put into the slots. */
    method Distribute(le: Order, tmp: nat, list0: nat, ghost s: seq<nat>)
      returns (part: seq<nat>, maxlev: nat, ghost cut: seq<nat>)
      requires TotalPreorder(le) && NoDup(s) && tmp !in s && tmp != 0 && tmp in next && Chain(next, list0, s) && s != []
      modifies this`next
      ensures Slots(next, part, cut, s, |s|, le, 0) && Only(old(next), next, [tmp] + s) && next.Keys == old(next).Keys
      ensures maxlev < SLOTS - 1 && part[maxlev] != 0 && forall l | maxlev < l < SLOTS :: part[l] == 0
    {
      hide Sorted, Chain, NoDup, Only, TotalPreorder, SlotOk;
      part, maxlev := seq(SLOTS, _ => 0), 0;
      cut := seq(SLOTS + 1, _ => 0);
      var list := list0;
      ghost var k := 0;
      NoSlots(next, part, cut, s, le);
      OnlySelf(next, [tmp] + s);
      assert s[0..] == s;
      while list != 0
        invariant k <= |s| && Slots(next, part, cut, s, k, le, 0) && Chain(next, list, s[k..])
          && Only(old(next), next, [tmp] + s) && tmp in next
        invariant maxlev < SLOTS - 1 && (forall l | maxlev < l < SLOTS :: part[l] == 0)
          && (part[maxlev] != 0 || (k == 0 && maxlev == 0))
        decreases |s| - k
      {
        var cur := list;
        TakeFirst(next, part, cut, s, k, le, list, tmp);
        list := next[list];
        OnlyStep(old(next), next, next[cur := 0], s, k, tmp);
        next := next[cur := 0];
        ghost var before := next;
        var lev;
        ghost var was := part;
        part, lev, cur := Carry(le, tmp, part, cur, cut, s, k);
        RestKept(before, next, s, k, tmp, list);
        OnlyJoin(old(next), before, next, s, k, tmp);
        EmptySlot(next, part, cut, s, k, le, lev, lev);
        NotEmpty(next, le, s, cut[lev], k + 1, cur);
        ghost var top := lev;
        if lev > maxlev {
          assert was[maxlev + 1] == 0;
          assert lev == maxlev + 1;
          if lev >= SLOTS - 1 {
            lev := lev - 1;
          }
          maxlev := lev;
        }
        Stored(next, part, cut, s, k, le, top, lev, cur);
        part := part[lev := cur];
        cut, k := Joined(cut, lev, k + 1), k + 1;
      }
      ChainTail(next, list, s[k..]);
      OnlyKeys(old(next), next, [tmp] + s);
    }

    /** `lsort`: the ring is sorted, stably, with its links back; `tmp` is the list head on the stack of `merge`. */
    method Sort(le: Order, h: nat, tmp: nat, ghost s: seq<nat>)
      requires TotalPreorder(le) && Ring(next, prev, h, s) && tmp !in [h] + s && tmp != 0 && tmp in next
      modifies this`next, this`prev
      ensures Ring(next, prev, h, Sorted(le, s))
    {
      hide Sorted, Chain, NoDup, Only, TotalPreorder, Ring, Merged, SlotOk;
      RingFacts(next, prev, h, s);
      if next[h] == h {
        SortedNothing(le);
        return;
      }
      Opened(next, prev, h, s);
      next := next[prev[h] := 0];
      var list := next[h];
      var part, maxlev;
      ghost var cut;
      part, maxlev, cut := Distribute(le, tmp, list, s);
      list := 0;
      var lev := 0;
      EmptyChain(next, le, s, |s|);
      StretchEnd(cut, s, |s|);
      while lev < maxlev
        invariant lev <= maxlev && Slots(next, part, cut, s, |s|, le, lev) && cut[lev] <= |s|
          && Chain(next, list, Sorted(le, s[cut[lev]..|s|]))
        invariant tmp in next && h in next && prev == old(prev)
      {
        ghost var i, j, before := cut[lev + 1], cut[lev], next;
        EmptySlot(next, part, cut, s, |s|, le, lev, lev);
        CollectStep(next, part, cut, s, le, lev, tmp, h);
        if part[lev] != 0 {
          list := Merge(le, tmp, part[lev], list, Sorted(le, s[i..j]), Sorted(le, s[j..|s|]));
          CollectKeeps(before, next, part, cut, s, le, lev, tmp);
          HeadKept(before, next, h, tmp, le, s, i, j);
        }
        lev := lev + 1;
      }
      TopEmpty(next, part, cut, s, le, lev, lev + 1);
      CollectStep(next, part, cut, s, le, lev, tmp, h);
      ghost var j := cut[lev];
      EmptySlot(next, part, cut, s, |s|, le, lev, lev);
      LastMerge(le, s, j, h, prev);
      assert s[0..|s|] == s;
      MergeBack(le, h, part[lev], list, Sorted(le, s[0..j]), Sorted(le, s[j..|s|]));
    }
  }

  // ---------------------------------------------------------------- the slots

  /** The entries read so far are cut into stretches, one for each slot, the last ones for the first slot. */
  ghost predicate Cuts(cut: seq<nat>, k: nat) {
    && |cut| == SLOTS + 1 && cut[SLOTS] == 0 && cut[0] == k
    && forall i, j | 0 <= i <= j <= SLOTS :: cut[j] <= cut[i]
  }

  ghost predicate SlotOk(next: Links, part: seq<nat>, cut: seq<nat>, s: seq<nat>, le: Order, l: nat)
    requires |part| == SLOTS && |cut| == SLOTS + 1 && l < SLOTS
  {
    cut[l + 1] <= cut[l] <= |s| && Chain(next, part[l], Sorted(le, s[cut[l + 1]..cut[l]]))
  }

  /** The slots from `lo` on hold their stretches sorted; the last slot is never used. */
  ghost predicate Slots(next: Links, part: seq<nat>, cut: seq<nat>, s: seq<nat>, k: nat, le: Order, lo: nat) {
    && |part| == SLOTS && Cuts(cut, k) && k <= |s| && part[SLOTS - 1] == 0
    && forall l | lo <= l < SLOTS :: SlotOk(next, part, cut, s, le, l)
  }

  lemma {:induction false} SlotsKept(next: Links, next': Links, touched: seq<nat>, part: seq<nat>, cut: seq<nat>,
                                     s: seq<nat>, k: nat, le: Order, lo: nat)
    requires Slots(next, part, cut, s, k, le, lo) && Only(next, next', touched) && NoDup(s) && lo < SLOTS
    requires forall x | x in touched && x in s :: x in s[cut[lo]..]
    ensures Slots(next', part, cut, s, k, le, lo)
  {
    hide Chain, Sorted, NoDup, Only;
    forall l | lo <= l < SLOTS ensures SlotOk(next', part, cut, s, le, l) {
      assert SlotOk(next, part, cut, s, le, l);
      var t := s[cut[l + 1]..cut[l]];
      SortedMembers(le, t);
      forall x | x in Sorted(le, t) ensures x !in touched {
        Apart(s, cut[l + 1], cut[l], cut[lo], x);
      }
      ChainKept(next, next', touched, part[l], Sorted(le, t));
    }
  }

  lemma {:induction false} Apart(s: seq<nat>, i: nat, j: nat, k: nat, x: nat)
    requires NoDup(s) && i <= j <= k <= |s| && x in s[i..j]
    ensures x in s && x !in s[k..]
  {
    var a :| 0 <= a < j - i && s[i..j][a] == x;
    assert s[i + a] == x;
  }

  lemma {:induction false} StretchNoDup(le: Order, s: seq<nat>, i: nat, j: nat, k: nat, h: nat)
    requires NoDup(s) && h !in s && i <= j <= k <= |s|
    ensures NoDup([h] + Sorted(le, s[i..j]) + Sorted(le, s[j..k]))
    ensures forall x | x in [h] + Sorted(le, s[i..j]) + Sorted(le, s[j..k]) && x in s :: x in s[i..k]
  {
    hide Sorted;
    var a, b := s[i..j], s[j..k];
    SortedMembers(le, a);
    SortedMembers(le, b);
    SortedNoDup(le, a);
    SortedNoDup(le, b);
    assert s[i..k] == a + b;
    var sa, sb := Sorted(le, a), Sorted(le, b);
    forall x | x in sa ensures x in s && x !in sb { Apart(s, i, j, j, x); InStretch(s, j, k, x); }
    forall x | x in sb ensures x in s { InStretch(s, j, k, x); }
    NoDupThree(h, sa, sb);
  }

  lemma {:induction false} InStretch(s: seq<nat>, j: nat, k: nat, x: nat)
    requires j <= k <= |s|
    ensures x in s[j..k] ==> x in s[j..] && x in s
  {
    if x in s[j..k] {
      var a :| 0 <= a < k - j && s[j..k][a] == x;
      assert s[j + a] == x && s[j..][a] == x;
    }
  }

  lemma {:induction false} NoDupThree(h: nat, a: seq<nat>, b: seq<nat>)
    requires NoDup(a) && NoDup(b) && h !in a && h !in b && forall x | x in a :: x !in b
    ensures NoDup([h] + a + b)
  {
    var t := [h] + a + b;
    forall i, j | 0 <= i < j < |t| ensures t[i] != t[j] {
      if 0 < i <= |a| < j {
        assert t[i] in a && t[j] in b;
      }
    }
  }

  /** A slot that is empty has an empty stretch. */
  lemma {:induction false} EmptySlot(next: Links, part: seq<nat>, cut: seq<nat>, s: seq<nat>, k: nat, le: Order,
                                     lo: nat, l: nat)
    requires Slots(next, part, cut, s, k, le, lo) && lo <= l < SLOTS
    ensures part[l] == 0 <==> cut[l + 1] == cut[l]
  {
    hide Sorted;
    assert SlotOk(next, part, cut, s, le, l);
    ChainTail(next, part[l], Sorted(le, s[cut[l + 1]..cut[l]]));
    SortedMembers(le, s[cut[l + 1]..cut[l]]);
  }

  /** What the merge of a slot with the list that is carried needs, and gives. */
  lemma {:induction false} CarryStep(next: Links, part: seq<nat>, cut: seq<nat>, s: seq<nat>, k: nat, le: Order,
                                     lev: nat, tmp: nat)
    requires TotalPreorder(le) && NoDup(s) && tmp !in s && k < |s| && lev < SLOTS
      && Slots(next, part, cut, s, k, le, lev) && part[lev] != 0
    ensures lev + 1 < SLOTS && cut[lev + 1] <= cut[lev] <= k
    ensures var i, j := cut[lev + 1], cut[lev];
      && Chain(next, part[lev], Sorted(le, s[i..j])) && NoDup([tmp] + Sorted(le, s[i..j]) + Sorted(le, s[j..k + 1]))
      && Merged(le, Sorted(le, s[i..j]), Sorted(le, s[j..k + 1])) == Sorted(le, s[i..k + 1])
  {
    hide Merged, Sorted, Chain, NoDup, TotalPreorder;
    assert SlotOk(next, part, cut, s, le, lev);
    var i, j := cut[lev + 1], cut[lev];
    StretchNoDup(le, s, i, j, k + 1, tmp);
    SortedParts(le, s[i..j], s[j..k + 1]);
    assert s[i..j] + s[j..k + 1] == s[i..k + 1];
  }

  lemma {:induction false} CarryKeeps(first: Links, next: Links, next': Links, part: seq<nat>, cut: seq<nat>,
                                      s: seq<nat>, k: nat, le: Order, lev: nat, tmp: nat)
    requires NoDup(s) && tmp !in s && tmp in next && k < |s| && lev + 1 < SLOTS
      && Slots(next, part, cut, s, k, le, lev) && Only(first, next, [tmp] + s[..k + 1])
    requires Only(next, next', [tmp] + Sorted(le, s[cut[lev + 1]..cut[lev]]) + Sorted(le, s[cut[lev]..k + 1]))
    ensures Slots(next', part[lev := 0], cut, s, k, le, lev + 1) && Only(first, next', [tmp] + s[..k + 1])
      && tmp in next'
  {
    hide Sorted, NoDup, Chain;
    var i, j := cut[lev + 1], cut[lev];
    var touched := [tmp] + Sorted(le, s[i..j]) + Sorted(le, s[j..k + 1]);
    StretchNoDup(le, s, i, j, k + 1, tmp);
    SortedMembers(le, s[i..j]);
    SortedMembers(le, s[j..k + 1]);
    forall x | x in touched && x in s ensures x in s[i..] { InStretch(s, i, k + 1, x); }
    assert Slots(next, part, cut, s, k, le, lev + 1);
    SlotsKept(next, next', touched, part, cut, s, k, le, lev + 1);
    SlotsElse(next', part, cut, s, k, le, lev);
    forall x | x in touched ensures x in [tmp] + s[..k + 1] {
      Early(s, i, j, k + 1, x);
      Early(s, j, k + 1, k + 1, x);
    }
  }

  lemma {:induction false} SlotsElse(next: Links, part: seq<nat>, cut: seq<nat>, s: seq<nat>, k: nat, le: Order,
                                     lev: nat)
    requires lev + 1 < SLOTS && Slots(next, part, cut, s, k, le, lev + 1)
    ensures Slots(next, part[lev := 0], cut, s, k, le, lev + 1)
  {
    var part' := part[lev := 0];
    forall l | lev + 1 <= l < SLOTS ensures SlotOk(next, part', cut, s, le, l) {
      assert SlotOk(next, part, cut, s, le, l);
    }
  }

  lemma {:induction false} Early(s: seq<nat>, i: nat, j: nat, k: nat, x: nat)
    requires i <= j <= k <= |s|
    ensures x in s[i..j] ==> x in s[..k]
  {
    if x in s[i..j] {
      var a :| 0 <= a < j - i && s[i..j][a] == x;
      assert s[..k][i + a] == x;
    }
  }

  /** The stretches up to slot `lev` become one. */
  ghost function Joined(cut: seq<nat>, lev: nat, k: nat): seq<nat>
    requires |cut| == SLOTS + 1
  {
    seq(SLOTS + 1, l requires 0 <= l <= SLOTS => if l <= lev then k else cut[l])
  }

  lemma {:induction false} Stored(next: Links, part: seq<nat>, cut: seq<nat>, s: seq<nat>, k: nat, le: Order,
                                  lev: nat, lev': nat, cur: nat)
    requires lev < SLOTS && Slots(next, part, cut, s, k, le, lev) && k < |s| && cut[lev] <= k
      && Chain(next, cur, Sorted(le, s[cut[lev]..k + 1]))
    requires lev' < SLOTS - 1 && lev' <= lev && cut[lev' + 1] == cut[lev] && forall l | 0 <= l < lev :: part[l] == 0
    ensures Slots(next, part[lev' := cur], Joined(cut, lev', k + 1), s, k + 1, le, 0)
  {
    hide Sorted, Chain;
    var cut', part' := Joined(cut, lev', k + 1), part[lev' := cur];
    forall i, j | 0 <= i <= j <= SLOTS ensures cut'[j] <= cut'[i] {
      assert cut[j] <= cut[i] && cut[j] <= cut[0];
    }
    forall l | 0 <= l < SLOTS ensures SlotOk(next, part', cut', s, le, l) {
      if l < lev' {
        EmptyChain(next, le, s, k + 1);
      } else if l > lev' {
        if l < lev {
          assert cut[lev] <= cut[l + 1] <= cut[l] <= cut[lev' + 1];
          EmptyChain(next, le, s, cut[l]);
        } else {
          assert SlotOk(next, part, cut, s, le, l);
        }
      }
    }
  }

  lemma {:induction false} EmptyChain(next: Links, le: Order, s: seq<nat>, k: nat)
    requires k <= |s|
    ensures Chain(next, 0, Sorted(le, s[k..k]))
  {
    assert s[k..k] == [];
  }

  lemma {:induction false} BackStart(prev: Links, h: nat)
    requires h in prev
    ensures BackLinked(prev, [h] + [])
  {
  }

  /** The link back from the node that is moved. */
  lemma {:induction false} BackMore(next: Links, le: Order, h: nat, tail: nat, a: nat, b: nat, d: seq<nat>,
                                    ra: seq<nat>, rb: seq<nat>, whole: seq<nat>, prev: Links)
    requires Merging(next, le, h, tail, a, b, d, ra, rb, whole) && a != 0 && b != 0 && BackLinked(prev, [h] + d)
    requires forall x | x in whole :: x in prev
    ensures a in prev && b in prev && BackLinked(prev[a := tail], [h] + (d + [a]))
      && BackLinked(prev[b := tail], [h] + (d + [b]))
  {
    hide Merged, Linked;
    ChainTail(next, a, ra);
    ChainTail(next, b, rb);
    MergedMembers(le, ra, rb);
    assert a in ra && b in rb && a in whole && b in whole;
    var all := [h] + d + ra + rb;
    assert all[|d| + 1] == a && all[|d| + 1 + |ra|] == b;
    forall i | 0 <= i <= |d| ensures ([h] + d)[i] != a && ([h] + d)[i] != b { assert all[i] == ([h] + d)[i]; }
    BackAdded(prev, [h] + d, a);
    BackAdded(prev, [h] + d, b);
    assert [h] + d + [a] == [h] + (d + [a]) && [h] + d + [b] == [h] + (d + [b]);
  }

  lemma {:induction false} BackAdded(prev: Links, d: seq<nat>, x: nat)
    requires BackLinked(prev, d) && d != [] && x in prev && x !in d
    ensures BackLinked(prev[x := d[|d| - 1]], d + [x])
  {
  }

  lemma {:induction false} MergeEnd(next: Links, le: Order, h: nat, tail: nat, a: nat, b: nat, d: seq<nat>,
                                    ra: seq<nat>, rb: seq<nat>, whole: seq<nat>)
    requires Merging(next, le, h, tail, a, b, d, ra, rb, whole) && (a == 0 || b == 0) && whole != []
    requires a != 0 || b != 0
    ensures |d| < |whole| && tail == ([h] + whole)[|d|] && d <= whole && tail in next
    ensures var n := next[tail := if a != 0 then a else b];
      ([h] + whole)[|whole|] in n && n[([h] + whole)[|whole|]] == 0
  {
    hide Merged, NoDup;
    MergeDone(next, le, h, tail, a, b, d, ra, rb, whole);
    ChainTail(next, a, ra);
    ChainTail(next, b, rb);
    var n := next[tail := if a != 0 then a else b];
    assert ([h] + whole)[|whole|] == whole[|whole| - 1];
    assert n[whole[|whole| - 1]] == After(whole, |whole| - 1);
  }

  lemma {:induction false} NextIs(next: Links, all: seq<nat>, k: nat)
    requires Linked(next, all) && k + 1 < |all|
    ensures all[k] in next && next[all[k]] == all[k + 1]
  {
  }

  lemma {:induction false} LastOrNot(next: Links, all: seq<nat>, k: nat)
    requires Linked(next, all) && k < |all| && all[|all| - 1] in next && next[all[|all| - 1]] == 0
    ensures all[k] in next && (next[all[k]] == 0 <==> k == |all| - 1)
  {
    if k < |all| - 1 { assert next[all[k]] == all[k + 1]; }
  }

  lemma {:induction false} BackStep(prev: Links, all: seq<nat>, k: nat)
    requires NoDup(all) && k + 1 < |all| && BackLinked(prev, all[..k + 1]) && all[k + 1] in prev
    ensures BackLinked(prev[all[k + 1] := all[k]], all[..k + 2])
  {
    assert all[k + 1] !in all[..k + 1];
    BackAdded(prev, all[..k + 1], all[k + 1]);
    assert all[..k + 1] + [all[k + 1]] == all[..k + 2];
  }

  lemma {:induction false} RingClosed(next: Links, prev: Links, h: nat, s: seq<nat>)
    requires s != [] && NoDup([h] + s) && Linked(next, [h] + s) && BackLinked(prev, [h] + s)
    ensures var last := ([h] + s)[|s|]; Ring(next[last := h], prev[h := last], h, s)
  {
    var all, last := [h] + s, ([h] + s)[|s|];
    var n, p := next[last := h], prev[h := last];
    assert all[0] == h;
    forall i | 0 <= i < |all| - 1 ensures n[all[i]] == all[i + 1] { assert all[i] != all[|s|]; }
    forall i | 0 < i < |all| ensures p[all[i]] == all[i - 1] { assert all[0] != all[i]; }
  }

  lemma {:induction false} OnlySelf(a: Links, touched: seq<nat>)
    ensures Only(a, a, touched)
  {
  }

  lemma {:induction false} OnlyKeys(a: Links, b: Links, touched: seq<nat>)
    requires Only(a, b, touched)
    ensures a.Keys == b.Keys
  {
  }

  lemma {:induction false} OnlyMore(a: Links, b: Links, touched: seq<nat>, x: nat, y: nat)
    requires Only(a, b, touched) && x in touched && x in b
    ensures Only(a, b[x := y], touched)
  {
  }

  lemma {:induction false} HeadIn(next: Links, h: nat, s: seq<nat>)
    requires Linked(next, [h] + s)
    ensures h in next
  {
    assert ([h] + s)[0] in next;
  }

  // ---------------------------------------------------------------- the loops of lsort

  lemma {:induction false} NoSlots(next: Links, part: seq<nat>, cut: seq<nat>, s: seq<nat>, le: Order)
    requires |part| == SLOTS && |cut| == SLOTS + 1 && (forall l | 0 <= l < SLOTS :: part[l] == 0)
      && forall l | 0 <= l <= SLOTS :: cut[l] == 0
    ensures Slots(next, part, cut, s, 0, le, 0)
  {
    hide Chain, Sorted;
    forall l | 0 <= l < SLOTS ensures SlotOk(next, part, cut, s, le, l) {
      EmptyChain(next, le, s, 0);
    }
  }

  /** The first entry that is left becomes a list of its own. */
  lemma {:induction false} TakeFirst(next: Links, part: seq<nat>, cut: seq<nat>, s: seq<nat>, k: nat, le: Order,
                                     list: nat, tmp: nat)
    requires NoDup(s) && tmp !in s && k <= |s| && Slots(next, part, cut, s, k, le, 0) && Chain(next, list, s[k..])
      && list != 0
    ensures k < |s| && list == s[k] && list in next && tmp != list
    ensures var n := next[list := 0];
      Slots(n, part, cut, s, k, le, 0) && Chain(n, list, [s[k]]) && Chain(n, next[list], s[k + 1..])
  {
    hide SlotOk;
    ChainTail(next, list, s[k..]);
    var n := next[list := 0];
    assert s[k..][1..] == s[k + 1..];
    assert Only(next, n, [list]);
    forall x | x in s[k + 1..] ensures x !in [list] {
      assert x in s[k + 1..];
    }
    ChainKept(next, n, [list], next[list], s[k + 1..]);
    SlotsKept(next, n, [list], part, cut, s, k, le, 0);
    assert list != 0;
    assert After([s[k]], 0) == 0;
  }

  lemma {:induction false} OnlyStep(a: Links, b: Links, c: Links, s: seq<nat>, k: nat, tmp: nat)
    requires Only(a, b, [tmp] + s) && k < |s| && s[k] in b && c == b[s[k] := 0]
    ensures Only(a, c, [tmp] + s)
  {
    assert s[k] in [tmp] + s;
  }

  lemma {:induction false} RestKept(a: Links, b: Links, s: seq<nat>, k: nat, tmp: nat, list: nat)
    requires NoDup(s) && tmp !in s && k < |s| && Only(a, b, [tmp] + s[..k + 1]) && Chain(a, list, s[k + 1..])
    ensures Chain(b, list, s[k + 1..])
  {
    hide Chain;
    var t := s[k + 1..];
    forall x | x in t ensures x !in [tmp] + s[..k + 1] {
      var i :| 0 <= i < |t| && t[i] == x;
      assert s[k + 1 + i] == x;
    }
    ChainKept(a, b, [tmp] + s[..k + 1], list, s[k + 1..]);
  }

  lemma {:induction false} OnlyJoin(a: Links, b: Links, c: Links, s: seq<nat>, k: nat, tmp: nat)
    requires Only(a, b, [tmp] + s) && k < |s| && Only(b, c, [tmp] + s[..k + 1])
    ensures Only(a, c, [tmp] + s) && a.Keys == c.Keys
  {
    forall x | x in a && x !in [tmp] + s ensures x !in [tmp] + s[..k + 1] {
    }
  }

  lemma {:induction false} NotEmpty(next: Links, le: Order, s: seq<nat>, i: nat, j: nat, cur: nat)
    requires i < j <= |s| && Chain(next, cur, Sorted(le, s[i..j]))
    ensures cur != 0
  {
    hide Sorted;
    SortedMembers(le, s[i..j]);
    ChainTail(next, cur, Sorted(le, s[i..j]));
  }

  lemma {:induction false} SortedNothing(le: Order)
    ensures Sorted(le, []) == []
  {
  }

  lemma {:induction false} RingFacts(next: Links, prev: Links, h: nat, s: seq<nat>)
    requires Ring(next, prev, h, s)
    ensures h in next && h in prev && (next[h] == h <==> s == []) && NoDup(s) && h !in s && h != 0
    ensures forall x | x in [h] + s :: x in next && x in prev
  {
    var all := [h] + s;
    assert all[0] == h;
    if s != [] { assert next[all[0]] == all[1] && all[1] != all[0]; }
    forall i, j | 0 <= i < j < |s| ensures s[i] != s[j] { assert s[i] == all[i + 1] && s[j] == all[j + 1]; }
    forall i | 0 <= i < |s| ensures s[i] != h { assert s[i] == all[i + 1]; }
  }

  /** The ring is cut open behind its last entry. */
  lemma {:induction false} Opened(next: Links, prev: Links, h: nat, s: seq<nat>)
    requires Ring(next, prev, h, s) && s != []
    ensures h in prev && h in next && prev[h] in next && prev[h] != h
    ensures var n := next[prev[h] := 0]; n[h] == next[h] && Chain(n, n[h], s)
  {
    var all, n := [h] + s, next[prev[h] := 0];
    assert all[0] == h && next[all[0]] == all[1] && prev[h] == all[|s|];
    forall i | 0 <= i < |s| ensures s[i] != 0 && s[i] in n && n[s[i]] == After(s, i) {
      assert s[i] == all[i + 1];
      if i + 1 < |s| {
        assert next[all[i + 1]] == all[i + 2] && all[i + 1] != all[|s|];
      }
    }
  }

  lemma {:induction false} StretchEnd(cut: seq<nat>, s: seq<nat>, k: nat)
    requires Cuts(cut, k)
    ensures cut[0] == k
  {
  }

  lemma {:induction false} CollectStep(next: Links, part: seq<nat>, cut: seq<nat>, s: seq<nat>, le: Order, lev: nat,
                                       tmp: nat, h: nat)
    requires TotalPreorder(le) && NoDup(s) && tmp !in s && lev < SLOTS && Slots(next, part, cut, s, |s|, le, lev)
    ensures cut[lev + 1] <= cut[lev] <= |s| && Slots(next, part, cut, s, |s|, le, lev + 1)
    ensures var i, j, n := cut[lev + 1], cut[lev], |s|;
      && Chain(next, part[lev], Sorted(le, s[i..j])) && NoDup([tmp] + Sorted(le, s[i..j]) + Sorted(le, s[j..n]))
      && Merged(le, Sorted(le, s[i..j]), Sorted(le, s[j..n])) == Sorted(le, s[i..n])
  {
    hide Merged, Sorted, Chain, NoDup, TotalPreorder;
    assert SlotOk(next, part, cut, s, le, lev);
    var i, j, n := cut[lev + 1], cut[lev], |s|;
    StretchNoDup(le, s, i, j, n, tmp);
    SortedParts(le, s[i..j], s[j..n]);
    assert s[i..j] + s[j..n] == s[i..n];
  }

  lemma {:induction false} CollectKeeps(next: Links, next': Links, part: seq<nat>, cut: seq<nat>, s: seq<nat>,
                                        le: Order, lev: nat, tmp: nat)
    requires NoDup(s) && tmp !in s && tmp in next && lev + 1 < SLOTS && Slots(next, part, cut, s, |s|, le, lev)
    requires cut[lev + 1] <= cut[lev] <= |s|
      && Only(next, next', [tmp] + Sorted(le, s[cut[lev + 1]..cut[lev]]) + Sorted(le, s[cut[lev]..|s|]))
    ensures Slots(next', part, cut, s, |s|, le, lev + 1) && tmp in next'
  {
    hide Sorted, NoDup, Chain;
    var i, j, n := cut[lev + 1], cut[lev], |s|;
    var touched := [tmp] + Sorted(le, s[i..j]) + Sorted(le, s[j..n]);
    StretchNoDup(le, s, i, j, n, tmp);
    forall x | x in touched && x in s ensures x in s[i..] { InStretch(s, i, n, x); }
    assert Slots(next, part, cut, s, n, le, lev + 1);
    SlotsKept(next, next', touched, part, cut, s, n, le, lev + 1);
  }

  lemma {:induction false} HeadKept(next: Links, next': Links, h: nat, tmp: nat, le: Order, s: seq<nat>, i: nat, j: nat)
    requires i <= j <= |s| && h in next && Only(next, next', [tmp] + Sorted(le, s[i..j]) + Sorted(le, s[j..|s|]))
    ensures h in next'
  {
  }

  /** Above the highest slot that is taken there is nothing. */
  lemma {:induction false} TopEmpty(next: Links, part: seq<nat>, cut: seq<nat>, s: seq<nat>, le: Order, lo: nat, l: nat)
    requires Slots(next, part, cut, s, |s|, le, lo) && lo < l <= SLOTS && forall i | l <= i < SLOTS :: part[i] == 0
    ensures cut[l] == 0
    decreases SLOTS - l
  {
    hide SlotOk;
    if l < SLOTS {
      EmptySlot(next, part, cut, s, |s|, le, lo, l);
      TopEmpty(next, part, cut, s, le, lo, l + 1);
    }
  }

  lemma {:induction false} LastMerge(le: Order, s: seq<nat>, j: nat, h: nat, prev: Links)
    requires NoDup(s) && h !in s && 0 < j <= |s| && forall x | x in [h] + s :: x in prev
    ensures NoDup([h] + Sorted(le, s[0..j]) + Sorted(le, s[j..|s|]))
      && Sorted(le, s[0..j]) + Sorted(le, s[j..|s|]) != []
    ensures forall x | x in [h] + Sorted(le, s[0..j]) + Sorted(le, s[j..|s|]) :: x in prev
  {
    hide Sorted, NoDup;
    StretchNoDup(le, s, 0, j, |s|, h);
    SortedMembers(le, s[0..j]);
    SortedMembers(le, s[j..|s|]);
    forall x | x in [h] + Sorted(le, s[0..j]) + Sorted(le, s[j..|s|]) ensures x in prev {
      assert x == h || x in s[0..j] || x in s[j..|s|];
      assert x in [h] + s;
    }
  }
}
