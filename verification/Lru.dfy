/**
 The byte-bounded cache of user-test/lib/libx/lru.c: items in hash chains and in a list, the latest
 set first; when room is needed the items at the end of the list go, except the one that is about to
 be replaced.

 An item is known by its address.  What the cache holds is the list of keys and values in `Entries`.
 */
module Lru {
  import opened Lists
  import opened LruLinks
  import opened Wrappers

  /** `sizeof(struct lru_item_t)` */
  const HEADER: nat := 32

  type Bytes = seq<nat>

  datatype Item = Item(key: Bytes, value: Bytes)

  /** `nbytes` of an item */
  function Size(i: Item): nat {
    HEADER + |i.key| + 1 + |i.value|
  }

  type Items = map<nat, Item>

  /**
   The item that `lru_set` makes in memory that held `junk`: the length of the key is kept in one byte,
   and the value is put behind that many bytes of the key.
   */
  function Stored(key: Bytes, buf: Bytes, junk: Bytes): (x: Item)
    requires |junk| == |key| + 1 + |buf|
    ensures Size(x) == HEADER + |junk| && |x.key| < 256
  {
    var nkey, data := |key| % 256, key + junk[|key|..];
    var data' := data[..nkey + 1] + buf + data[nkey + 1 + |buf|..];
    Item(data'[..nkey], data'[nkey + 1..])
  }

  /** The item holds the key and the value if and only if the length of the key fits in a byte. */
  lemma {:induction false} StoredWhen(key: Bytes, buf: Bytes, junk: Bytes)
    requires |junk| == |key| + 1 + |buf|
    ensures Stored(key, buf, junk) == Item(key, buf) <==> |key| < 256
    ensures Stored(key, buf, junk).key == key[..|key| % 256]
  {
    var nkey, data := |key| % 256, key + junk[|key|..];
    var data' := data[..nkey + 1] + buf + data[nkey + 1 + |buf|..];
    assert data'[..nkey] == key[..nkey];
    if |key| < 256 {
      assert data'[nkey + 1..] == buf;
    }
  }

  // ---------------------------------------------------------------- the cache as a list of entries

  ghost function Total(e: seq<Item>): nat {
    if e == [] then 0 else Total(e[..|e| - 1]) + Size(e[|e| - 1])
  }

  /** The value of a key, the first in the list if there were several */
  ghost function Find(e: seq<Item>, key: Bytes): Option<Bytes> {
    if e == [] then None else if e[0].key == key then Some(e[0].value) else Find(e[1..], key)
  }

  ghost function Others(e: seq<Item>, key: Bytes): seq<Item> {
    if e == [] then [] else if e[|e| - 1].key == key then Others(e[..|e| - 1], key)
      else Others(e[..|e| - 1], key) + [e[|e| - 1]]
  }

  /** As many of the latest entries as fit */
  ghost function Latest(e: seq<Item>, room: int): seq<Item> {
    if e == [] || Total(e) <= room then e else Latest(e[..|e| - 1], room)
  }

  ghost predicate DistinctKeys(e: seq<Item>) {
    forall i, j | 0 <= i < j < |e| :: e[i].key != e[j].key
  }

  lemma {:induction false} OthersSplit(a: seq<Item>, b: seq<Item>, key: Bytes)
    ensures Others(a + b, key) == Others(a, key) + Others(b, key)
  {
    if b == [] {
      assert a + b == a;
    } else {
      assert (a + b)[..|a + b| - 1] == a + b[..|b| - 1];
      OthersSplit(a, b[..|b| - 1], key);
    }
  }

  lemma {:induction false} OthersOne(x: Item, key: Bytes)
    ensures Others([x], key) == if x.key == key then [] else [x]
  {
    assert [x][..0] == [];
  }

  lemma {:induction false} OthersNone(e: seq<Item>, key: Bytes)
    requires forall i | 0 <= i < |e| :: e[i].key != key
    ensures Others(e, key) == e && Find(e, key) == None
  {
    OthersSame(e, key);
    FindNone(e, key);
  }

  lemma {:induction false} OthersSame(e: seq<Item>, key: Bytes)
    requires forall i | 0 <= i < |e| :: e[i].key != key
    ensures Others(e, key) == e
  {
    if e != [] {
      OthersSame(e[..|e| - 1], key);
    }
  }

  lemma {:induction false} FindNone(e: seq<Item>, key: Bytes)
    requires forall i | 0 <= i < |e| :: e[i].key != key
    ensures Find(e, key) == None
  {
    if e != [] {
      FindNone(e[1..], key);
    }
  }

  lemma {:induction false} FindAt(e: seq<Item>, i: nat)
    requires DistinctKeys(e) && i < |e|
    ensures Find(e, e[i].key) == Some(e[i].value)
  {
    if i > 0 {
      assert e[0].key != e[i].key;
      FindAt(e[1..], i - 1);
    }
  }

  lemma {:induction false} TotalSplit(a: seq<Item>, b: seq<Item>)
    ensures Total(a + b) == Total(a) + Total(b)
  {
    if b == [] {
      assert a + b == a;
    } else {
      assert (a + b)[..|a + b| - 1] == a + b[..|b| - 1];
      TotalSplit(a, b[..|b| - 1]);
    }
  }

  lemma {:induction false} TotalOne(x: Item)
    ensures Total([x]) == Size(x)
  {
    assert [x][..0] == [];
  }

  lemma {:induction false} DistinctParts(a: seq<Item>, x: Item, b: seq<Item>)
    requires DistinctKeys(a + [x] + b)
    ensures DistinctKeys(a + b)
    ensures (forall i | 0 <= i < |a| :: a[i].key != x.key) && forall i | 0 <= i < |b| :: b[i].key != x.key
  {
    var e := a + [x] + b;
    assert e[|a|] == x;
    forall i | 0 <= i < |a| ensures a[i].key != x.key { assert e[i] == a[i]; }
    forall i | 0 <= i < |b| ensures b[i].key != x.key { assert e[|a| + 1 + i] == b[i]; }
    forall i, j | 0 <= i < j < |a + b| ensures (a + b)[i].key != (a + b)[j].key {
      var i', j' := if i < |a| then i else i + 1, if j < |a| then j else j + 1;
      assert (a + b)[i] == e[i'] && (a + b)[j] == e[j'];
    }
  }

  /** One entry less */
  lemma {:induction false} TakenOut(a: seq<Item>, x: Item, b: seq<Item>)
    requires DistinctKeys(a + [x] + b)
    ensures Others(a + [x] + b, x.key) == a + b && Total(a + b) == Total(a + [x] + b) - Size(x) && DistinctKeys(a + b)
  {
    hide Others, Total, DistinctKeys;
    DistinctParts(a, x, b);
    OthersSplit(a + [x], b, x.key);
    OthersSplit(a, [x], x.key);
    OthersOne(x, x.key);
    OthersSame(a, x.key);
    OthersSame(b, x.key);
    TotalSplit(a, b);
    TotalSplit(a + [x], b);
    TotalSplit(a, [x]);
    TotalOne(x);
  }

  /** Dropping the oldest of the other entries, while there is no room, keeps the latest that fit. */
  lemma {:induction false} LatestDropped(a: seq<Item>, x: Item, b: seq<Item>, key: Bytes, room: int)
    requires DistinctKeys(a + [x] + b) && x.key != key && Others(b, key) == [] && Total(Others(a + [x] + b, key)) > room
    ensures Latest(Others(a + b, key), room) == Latest(Others(a + [x] + b, key), room)
  {
    hide Others, Total;
    OthersSplit(a + [x], b, key);
    OthersSplit(a, [x], key);
    OthersSplit(a, b, key);
    OthersOne(x, key);
    var w := Others(a, key);
    assert Others(a + [x] + b, key) == w + [x] && Others(a + b, key) == w;
    assert (w + [x])[..|w|] == w;
  }

  /** The kept entries are a first part of the list, they fit, and no longer part does. */
  lemma {:induction false} LatestIs(e: seq<Item>, room: int)
    requires room >= 0
    ensures Latest(e, room) <= e && Total(Latest(e, room)) <= room
    ensures var n := |Latest(e, room)|; n < |e| ==> Total(e[..n + 1]) > room
  {
    if e != [] && Total(e) > room {
      var f := e[..|e| - 1];
      LatestIs(f, room);
      var n := |Latest(f, room)|;
      if n < |f| { assert e[..n + 1] == f[..n + 1]; } else { assert e[..n + 1] == e; }
    }
  }

  /** After a set, the key has the new value, and any other key has the one it had or was dropped as too old. */
  lemma {:induction false} SetMeans(e: seq<Item>, x: Item, room: int, key: Bytes)
    requires DistinctKeys(e) && room >= 0
    ensures var w := Others(e, x.key); var r := [x] + Latest(w, room);
      && Find(r, x.key) == Some(x.value)
      && (key != x.key ==>
            || Find(r, key) == Find(e, key)
            || (Find(r, key) == None && exists i :: |Latest(w, room)| <= i < |w| && w[i].key == key))
  {
    hide Latest;
    var w := Others(e, x.key);
    var l := Latest(w, room);
    LatestIs(w, room);
    assert ([x] + l)[1..] == l && l == w[..|l|];
    if key != x.key {
      FindOthers(e, x.key, key);
      FindFirst(w, |l|, key);
    }
  }

  lemma {:induction false} FindSnoc(f: seq<Item>, l: Item, key: Bytes)
    ensures Find(f + [l], key) ==
      if Find(f, key).Some? then Find(f, key) else if l.key == key then Some(l.value) else None
  {
    if f == [] {
      assert f + [l] == [l];
    } else {
      assert (f + [l])[1..] == f[1..] + [l];
      FindSnoc(f[1..], l, key);
    }
  }

  lemma {:induction false} FindOthers(e: seq<Item>, k: Bytes, key: Bytes)
    requires k != key
    ensures Find(Others(e, k), key) == Find(e, key)
  {
    if e != [] {
      var f, l := e[..|e| - 1], e[|e| - 1];
      FindOthers(f, k, key);
      assert e == f + [l];
      FindSnoc(f, l, key);
      FindSnoc(Others(f, k), l, key);
    }
  }

  lemma {:induction false} FindFirst(e: seq<Item>, n: nat, key: Bytes)
    requires n <= |e|
    ensures Find(e[..n], key) == Find(e, key)
      || (Find(e[..n], key) == None && exists i :: n <= i < |e| && e[i].key == key)
    decreases |e| - n
  {
    if n == |e| {
      assert e[..n] == e;
    } else {
      FindFirst(e, n + 1, key);
      assert e[..n + 1] == e[..n] + [e[n]];
      FindSnoc(e[..n], e[n], key);
    }
  }

  // ---------------------------------------------------------------- the lists and chains

  ghost function Entry(item: Items, id: nat): Item {
    if id in item then item[id] else Item([], [])
  }

  ghost function Entries(item: Items, list: seq<nat>): (e: seq<Item>)
    ensures |e| == |list| && forall i | 0 <= i < |list| :: e[i] == Entry(item, list[i])
  {
    seq(|list|, i requires 0 <= i < |list| => Entry(item, list[i]))
  }

  /** The list holds every item once, and no two have the same key. */
  ghost predicate Listed(item: Items, list: seq<nat>) {
    && NoDup(list) && (forall id :: id in list <==> id in item)
    && (forall i | 0 <= i < |list| :: list[i] in item) && DistinctKeys(Entries(item, list))
  }

  ghost predicate ChainOk(item: Items, chain: seq<nat>, h: nat, hash: Bytes -> nat, n: nat)
    requires n > 0
  {
    && NoDup(chain)
    && forall id :: id in chain <==> id in item && hash(item[id].key) % n == h
  }

  /** Each chain holds the items of its hash. */
  ghost predicate Hashed(item: Items, table: seq<seq<nat>>, hash: Bytes -> nat) {
    |table| > 0 && forall h | 0 <= h < |table| :: ChainOk(item, table[h], h, hash, |table|)
  }

  /** An item is found by its key, wherever it is. */
  lemma {:induction false} KeyIsItem(item: Items, list: seq<nat>, a: nat, b: nat)
    requires Listed(item, list) && a in item && b in item && item[a].key == item[b].key
    ensures a == b
  {
    var i :| 0 <= i < |list| && list[i] == a;
    var j :| 0 <= j < |list| && list[j] == b;
    var e := Entries(item, list);
    assert e[i] == item[a] && e[j] == item[b];
  }

  lemma {:induction false} ListedRemoved(item: Items, list: seq<nat>, i: nat)
    requires Listed(item, list) && i < |list|
    ensures var l, m := list[..i] + list[i + 1..], item - {list[i]};
      && Listed(m, l) && Entries(m, l) == Entries(item, list)[..i] + Entries(item, list)[i + 1..]
  {
    hide DistinctKeys, NoDup, Entries;
    var id := list[i];
    MembersLeft(list, i);
    DistinctEntries(Entries(item, list), i);
    EntriesKept(item, item - {id}, list[..i] + list[i + 1..], id);
    EntriesParts(item, list, i);
  }

  lemma {:induction false} MembersLeft(list: seq<nat>, i: nat)
    requires NoDup(list) && i < |list|
    ensures var l := list[..i] + list[i + 1..]; NoDup(l) && forall x :: x in l <==> x in list && x != list[i]
  {
    hide NoDup;
    assert list == list[..i] + [list[i]] + list[i + 1..];
    NoDupParts(list[..i], list[i], list[i + 1..]);
  }

  lemma {:induction false} DistinctEntries(e: seq<Item>, i: nat)
    requires DistinctKeys(e) && i < |e|
    ensures DistinctKeys(e[..i] + e[i + 1..])
  {
    hide DistinctKeys;
    assert e == e[..i] + [e[i]] + e[i + 1..];
    DistinctParts(e[..i], e[i], e[i + 1..]);
  }

  lemma {:induction false} EntriesParts(item: Items, list: seq<nat>, i: nat)
    requires i < |list|
    ensures Entries(item, list[..i] + list[i + 1..]) == Entries(item, list)[..i] + Entries(item, list)[i + 1..]
  {
  }

  lemma {:induction false} EntriesKept(item: Items, m: Items, l: seq<nat>, id: nat)
    requires m == item - {id} && id !in l
    ensures Entries(m, l) == Entries(item, l)
  {
    forall j | 0 <= j < |l| ensures Entry(m, l[j]) == Entry(item, l[j]) {
      assert l[j] in l;
    }
  }

  lemma {:induction false} EntriesAdded(item: Items, list: seq<nat>, id: nat, x: Item)
    requires id !in list
    ensures Entries(item[id := x], [id] + list) == [x] + Entries(item, list)
  {
    var l, m := [id] + list, item[id := x];
    forall j | 0 <= j < |l| ensures Entries(m, l)[j] == ([x] + Entries(item, list))[j] {
      if j > 0 { assert l[j] == list[j - 1] && list[j - 1] in list; }
    }
  }

  lemma {:induction false} ListedWhen(item: Items, list: seq<nat>, id: nat, x: Item)
    requires Listed(item, list) && id !in item && id !in list
    ensures Listed(item[id := x], [id] + list) <==> forall j | j in item :: item[j].key != x.key
  {
    if forall j | j in item :: item[j].key != x.key {
      ListedAdded(item, list, id, x);
    } else if Listed(item[id := x], [id] + list) {
      var j :| j in item && item[j].key == x.key;
      KeyIsItem(item[id := x], [id] + list, id, j);
    }
  }

  lemma {:induction false} HashedWhen(item: Items, table: seq<seq<nat>>, hash: Bytes -> nat, id: nat, x: Item, h: nat)
    requires Hashed(item, table, hash) && id !in item && h < |table|
    ensures Hashed(item[id := x], table[h := [id] + table[h]], hash) <==> h == hash(x.key) % |table|
  {
    hide NoDup;
    var t, m := table[h := [id] + table[h]], item[id := x];
    if h == hash(x.key) % |table| {
      HashedAdded(item, table, hash, id, x);
    } else {
      assert id in t[h] && !(hash(m[id].key) % |t| == h);
      assert !ChainOk(m, t[h], h, hash, |t|);
    }
  }

  lemma {:induction false} ChainsAdded(item: Items, table: seq<seq<nat>>, id: nat, x: Item, h: nat)
    requires ChainsIn(item, table) && Short(item) && |x.key| < 256 && h < |table|
    ensures ChainsIn(item[id := x], table[h := [id] + table[h]]) && Short(item[id := x])
  {
  }

  /** The keys of the items are those of the entries. */
  lemma {:induction false} KeysListed(item: Items, list: seq<nat>, key: Bytes)
    requires Listed(item, list)
    ensures (forall id | id in item :: item[id].key != key) <==>
      forall i | 0 <= i < |list| :: Entries(item, list)[i].key != key
  {
    hide NoDup, DistinctKeys;
    if forall i | 0 <= i < |list| :: Entries(item, list)[i].key != key {
      forall id | id in item ensures item[id].key != key {
        var i :| 0 <= i < |list| && list[i] == id;
        assert Entries(item, list)[i] == item[id];
      }
    }
  }

  lemma {:induction false} ListedAdded(item: Items, list: seq<nat>, id: nat, x: Item)
    requires Listed(item, list) && id !in item && forall j | j in item :: item[j].key != x.key
    ensures var l, m := [id] + list, item[id := x];
      && Listed(m, l) && Entries(m, l) == [x] + Entries(item, list)
  {
    var l, m, e := [id] + list, item[id := x], Entries(item, list);
    NoDupAdd(list, id);
    forall j | 0 <= j < |l| ensures l[j] in m && m[l[j]] == ([x] + e)[j] {
      if j > 0 { assert l[j] == list[j - 1] && list[j - 1] in list; }
    }
    assert Entries(m, l) == [x] + e;
    forall i, j | 0 <= i < j < |l| ensures ([x] + e)[i].key != ([x] + e)[j].key {
      assert ([x] + e)[j] == e[j - 1] == item[list[j - 1]] && list[j - 1] in list;
    }
  }

  lemma {:induction false} HashedRemoved(item: Items, table: seq<seq<nat>>, hash: Bytes -> nat, id: nat, i: nat)
    requires Hashed(item, table, hash) && id in item
    requires var h := hash(item[id].key) % |table|; i < |table[h]| && table[h][i] == id
    ensures var h := hash(item[id].key) % |table|;
      Hashed(item - {id}, table[h := table[h][..i] + table[h][i + 1..]], hash)
  {
    var h := hash(item[id].key) % |table|;
    var t, m := table[h := table[h][..i] + table[h][i + 1..]], item - {id};
    forall g | 0 <= g < |t| ensures ChainOk(m, t[g], g, hash, |t|) {
      assert ChainOk(item, table[g], g, hash, |table|);
      if g == h {
        var c := table[h];
        assert c == c[..i] + [id] + c[i + 1..];
        NoDupParts(c[..i], id, c[i + 1..]);
      }
    }
  }

  lemma {:induction false} HashedAdded(item: Items, table: seq<seq<nat>>, hash: Bytes -> nat, id: nat, x: Item)
    requires Hashed(item, table, hash) && id !in item
    ensures var h := hash(x.key) % |table|; Hashed(item[id := x], table[h := [id] + table[h]], hash)
  {
    var h := hash(x.key) % |table|;
    var t, m := table[h := [id] + table[h]], item[id := x];
    forall g | 0 <= g < |t| ensures ChainOk(m, t[g], g, hash, |t|) {
      assert ChainOk(item, table[g], g, hash, |table|);
      if g == h { NoDupAdd(table[h], id); }
    }
  }

  /** The length of every key fits in a byte. */
  ghost predicate Short(item: Items) {
    forall id | id in item :: |item[id].key| < 256
  }

  ghost predicate ChainsIn(item: Items, table: seq<seq<nat>>) {
    forall h | 0 <= h < |table| :: forall id | id in table[h] :: id in item
  }

  lemma {:induction false} ChainMembers(item: Items, table: seq<seq<nat>>, h: nat)
    requires ChainsIn(item, table) && h < |table|
    ensures forall j | 0 <= j < |table[h]| :: table[h][j] in item
  {
    forall j | 0 <= j < |table[h]| ensures table[h][j] in item { assert table[h][j] in table[h]; }
  }

  lemma {:induction false} AllPassed(item: Items, chain: seq<nat>, i: nat, key: Bytes)
    requires i <= |chain| && At(chain, i) == 0 && 0 !in chain && forall j | 0 <= j < |chain| :: chain[j] in item
    requires forall j | 0 <= j < i :: item[chain[j]].key != key
    ensures forall id | id in chain :: id in item && item[id].key != key
  {
    assert forall j | 0 <= j < |chain| :: chain[j] in chain && chain[j] != 0;
  }

  lemma {:induction false} NoneAnywhere(item: Items, table: seq<seq<nat>>, hash: Bytes -> nat, key: Bytes)
    requires Hashed(item, table, hash)
    requires forall id | id in table[hash(key) % |table|] :: id in item && item[id].key != key
    ensures forall id | id in item :: item[id].key != key
  {
    hide NoDup;
    var h := hash(key) % |table|;
    assert ChainOk(item, table[h], h, hash, |table|);
  }

  lemma {:induction false} HashedIn(item: Items, table: seq<seq<nat>>, hash: Bytes -> nat)
    requires Hashed(item, table, hash)
    ensures ChainsIn(item, table)
  {
    hide NoDup;
    forall h | 0 <= h < |table| ensures forall id | id in table[h] :: id in item {
      assert ChainOk(item, table[h], h, hash, |table|);
    }
  }

  // ---------------------------------------------------------------- the code

  class Cache {
    /** The items in memory and their links */
    var item: Items
    var next: Links
    var prev: Links
    var hnext: Links
    var head: nat
    var tail: nat
    var slots: seq<nat>
    var currBytes: nat
    const maxBytes: nat
    const hash: Bytes -> nat
    /** Addresses from here on are not in use. */
    var top: nat
    /** The list and the chains that the links spell out */
    ghost var list: seq<nat>
    ghost var table: seq<seq<nat>>

    /** The links spell out the list and the chains. */
    ghost predicate Linked()
      reads this
    {
      && TwoWay(next, prev, head, tail, list) && Chains(hnext, slots, table) && |table| > 0
      && ChainsIn(item, table) && Short(item)
    }

    ghost predicate Shape()
      reads this
    {
      Listed(item, list) && Hashed(item, table, hash) && Linked()
    }

    ghost predicate Valid()
      reads this
    {
      && Shape() && top > 0 && (forall id | id in item :: id < top)
      && currBytes == Total(Entries(item, list)) && currBytes <= maxBytes
    }

    ghost function Contents(): seq<Item>
      requires Valid()
      reads this
    {
      Entries(item, list)
    }

    /** `lru_alloc`: a size of zero stands for one megabyte; the table may have any number of chains. */
    constructor (maxbytes: nat, size: nat, hash: Bytes -> nat)
      requires size > 0
      ensures Valid() && Contents() == [] && maxBytes == if maxbytes == 0 then 0x10_0000 else maxbytes
    {
      maxBytes := if maxbytes == 0 then 0x10_0000 else maxbytes;
      this.hash := hash;
      item, next, prev, hnext := map[], map[], map[], map[];
      head, tail, currBytes, top := 0, 0, 0, 1;
      slots := seq(size, _ => 0);
      list, table := [], seq(size, _ => []);
    }

    /** An item made for `key` can be found by its own key: its chain is the right one, and no other has that key. */
    ghost predicate Fitting(key: Bytes, x: Item, others: seq<Item>)
      reads this
    {
      && |table| > 0 && hash(key) % |table| == hash(x.key) % |table|
      && forall i | 0 <= i < |others| :: others[i].key != x.key
    }

    /** `lru_hash_search` */
    method Search(key: Bytes) returns (r: Option<nat>)
      requires Linked()
      ensures r.Some? ==> r.value in item && item[r.value].key == key && |key| < 256
      ensures r.None? ==> forall id | id in table[hash(key) % |table|] :: id in item && item[id].key != key
      ensures r.None? && Hashed(item, table, hash) ==> forall id | id in item :: item[id].key != key
    {
      hide Hashed, Total, NoDup, TwoWay, Chains, ChainsIn;
      ChainFacts(hnext, slots, table, 0);
      var h := hash(key) % |slots|;
      ChainFacts(hnext, slots, table, h);
      ghost var chain, i := table[h], 0;
      ChainMembers(item, table, h);
      var cur := slots[h];
      while cur != 0
        invariant 0 <= i <= |chain| && cur == At(chain, i)
        invariant forall j | 0 <= j < i :: item[chain[j]].key != key
        decreases |chain| - i
      {
        if item[cur].key == key {
          return Some(cur);
        }
        cur := hnext[cur];
        i := i + 1;
      }
      AllPassed(item, chain, i, key);
      if Hashed(item, table, hash) {
        NoneAnywhere(item, table, hash, key);
      }
      r := None;
    }

    /** `lru_get` */
    method Get(key: Bytes, nbuf: nat) returns (r: Bytes)
      requires Valid()
      ensures Find(Contents(), key) == None ==> r == []
      ensures Find(Contents(), key).Some? ==> var v := Find(Contents(), key).value;
        r == if |v| <= nbuf then v else v[..nbuf]
    {
      hide Hashed, Total, Find, TwoWay, Chains;
      var found := Search(key);
      if found.None? {
        FindNone(Entries(item, list), key);
        return [];
      }
      ghost var i :| 0 <= i < |list| && list[i] == found.value;
      FindAt(Entries(item, list), i);
      var v := item[found.value].value;
      r := if |v| <= nbuf then v else v[..nbuf];
    }

    /** `lru_hash_remove`: the item at place `k` of chain `h` */
    method HashRemove(id: nat, h: nat, ghost k: nat)
      requires Shape() && h < |table| && k < |table[h]| && table[h][k] == id && id in item
      modifies this`hnext, this`slots, this`table
      ensures table == old(table)[h := Taken(old(table)[h], k)] && Chains(hnext, slots, table)
    {
      hide Total, NoDup, Listed, Hashed, TwoWay, Chains, ApartChains, Taken;
      ghost var chain := table[h];
      HashedApart(item, table, hash, h);
      ChainFacts(hnext, slots, table, h);
      ChainUnlinked(hnext, slots, table, h, k);
      var before, cur := 0, slots[h];
      ghost var i := 0;
      while cur != 0 && item[cur].key != item[id].key
        invariant 0 <= i <= k && cur == At(chain, i) && before == At(chain, i - 1)
        decreases k - i
      {
        before, cur := cur, hnext[cur];
        i := i + 1;
      }
      KeyIsItem(item, list, id, cur);
      OnePlace(chain, i, k);
      var next' := hnext[cur];
      hnext := hnext[cur := 0];
      if before == 0 {
        slots := slots[h := next'];
      } else {
        hnext := hnext[before := next'];
      }
      table := table[h := Taken(chain, k)];
    }

    /** The unlinking of `lru_remove_item_hv` */
    method ListRemove(id: nat, ghost at: nat)
      requires TwoWay(next, prev, head, tail, list) && NoDup(list) && at < |list| && list[at] == id
      modifies this`next, this`prev, this`head, this`tail, this`list
      ensures TwoWay(next, prev, head, tail, list) && list == Taken(old(list), at)
    {
      hide TwoWay, NoDup, Taken;
      ListUnlinked(next, prev, head, tail, list, at);
      if head == id {
        head := next[id];
      }
      if tail == id {
        tail := prev[id];
      }
      if next[id] != 0 {
        prev := prev[next[id] := prev[id]];
      }
      if prev[id] != 0 {
        next := next[prev[id] := next[id]];
      }
      list := Taken(list, at);
    }

    /** `lru_remove_item_hv` of the item at `at` in the list */
    method RemoveItem(id: nat, ghost at: nat)
      requires Shape() && at < |list| && list[at] == id
      requires currBytes >= Size(Entries(item, list)[at])
      modifies this`item, this`next, this`prev, this`hnext, this`head, this`tail, this`slots, this`list, this`table,
        this`currBytes
      ensures Shape() && id in old(item) && item == old(item) - {id} && list == Taken(old(list), at)
      ensures Entries(item, list) == old(Entries(item, list))[..at] + old(Entries(item, list))[at + 1..]
      ensures currBytes == old(currBytes) - Size(old(item)[id])
    {
      hide Total, NoDup, Listed, Hashed, TwoWay, Chains, ChainsIn;
      RemoveFacts(item, list, table, hash, id, at);
      ChainFacts(hnext, slots, table, 0);
      var h := hash(item[id].key) % |slots|;
      ghost var k :| 0 <= k < |table[h]| && table[h][k] == id;
      HashedRemoved(item, table, hash, id, k);
      ListedRemoved(item, list, at);
      HashRemove(id, h, k);
      ListRemove(id, at);
      currBytes := currBytes - Size(item[id]);
      item := item - {id};
      HashedIn(item, table, hash);
    }

    /**
     `lru_alloc_item`: room for `sz` bytes beside the others when the item of `key` is replaced;
     `malloc` is whether memory is left.
     */
    method AllocItem(sz: nat, old': Option<nat>, malloc: bool, ghost key: Bytes) returns (ok: bool)
      requires Valid() && OldIs(item, old', key)
      modifies this`item, this`next, this`prev, this`hnext, this`head, this`tail, this`slots, this`list, this`table,
        this`currBytes
      ensures Shape() && item.Keys <= old(item).Keys
      ensures OldIs(item, old', key)
      ensures ok <==> sz <= maxBytes && malloc
      ensures currBytes == Total(Entries(item, list)) + if ok then sz else 0
      ensures sz > maxBytes ==> Entries(item, list) == old(Contents())
      ensures sz <= maxBytes ==> Others(Entries(item, list), key) == Latest(Others(old(Contents()), key), maxBytes - sz)
      ensures !ok ==> currBytes <= maxBytes && Find(Entries(item, list), key) == Find(old(Contents()), key)
    {
      hide Hashed, Total, Find, Latest, Others, NoDup, TwoWay, Chains;
      var delta := if old'.Some? then Size(item[old'.value]) else 0;
      OldSize(item, list, old', key);
      if currBytes + sz - delta <= maxBytes {
        EnoughRoom(Others(Entries(item, list), key), maxBytes - sz);
        if !malloc {
          return false;
        }
      } else if sz > maxBytes {
        return false;
      } else {
        Evict(sz, delta, old', key);
        if !malloc {
          return false;
        }
      }
      currBytes := currBytes + sz;
      ok := true;
    }

    /** The loop of `lru_alloc_item`: the oldest items go, except the one to be replaced. */
    method Evict(sz: nat, delta: nat, old': Option<nat>, ghost key: Bytes)
      requires Valid() && OldIs(item, old', key) && sz <= maxBytes
        && delta == if old'.Some? then Size(item[old'.value]) else 0
      modifies this`item, this`next, this`prev, this`hnext, this`head, this`tail, this`slots, this`list, this`table,
        this`currBytes
      ensures Valid() && OldIs(item, old', key) && item.Keys <= old(item).Keys
      ensures Others(Contents(), key) == Latest(Others(old(Contents()), key), maxBytes - sz)
        && Find(Contents(), key) == Find(old(Contents()), key)
    {
      hide Hashed, Total, Find, Latest, Others, Listed, TwoWay, Chains;
      TailFacts(next, prev, head, tail, list);
      var cur := tail;
      ghost var i := |list| - 1;
      ghost var room := maxBytes - sz;
      while cur != 0 && currBytes + sz - delta > maxBytes
        invariant Valid() && OldIs(item, old', key) && item.Keys <= old(item).Keys
          && (old'.Some? ==> delta == Size(item[old'.value]))
        invariant cur == At(list, i) && 0 !in list
        invariant i == |list| - 1 || (|list| > 0 && i == |list| - 2 && old'.Some? && list[|list| - 1] == old'.value)
        invariant Latest(Others(Contents(), key), room) == Latest(Others(old(Contents()), key), room)
          && Find(Contents(), key) == Find(old(Contents()), key)
        decreases 2 * |list| + if i == |list| - 1 then 1 else 0
      {
        OldSize(item, list, old', key);
        ListedNoDup(item, list);
        TailFacts(next, prev, head, tail, list);
        if old'.None? || cur != old'.value {
          Oldest(item, list, old', key, i, room);
          TotalAt(Entries(item, list), i);
          RemoveItem(cur, i);
          TailFacts(next, prev, head, tail, list);
          cur := tail;
          i := |list| - 1;
        } else {
          cur := prev[tail];
          i := |list| - 2;
        }
      }
      OldSize(item, list, old', key);
      if i < 0 {
        OnlyOld(item, list, old', key);
      }
      EnoughRoom(Others(Contents(), key), room);
    }

    /** `lru_hash_insert` */
    method HashInsert(id: nat, h: nat)
      requires Chains(hnext, slots, table) && h < |table| && id != 0 && forall g | 0 <= g < |table| :: id !in table[g]
      modifies this`hnext, this`slots, this`table
      ensures Chains(hnext, slots, table) && table == old(table)[h := [id] + old(table)[h]]
    {
      hide Chains;
      ChainFacts(hnext, slots, table, h);
      ChainPushed(hnext, slots, table, h, id);
      hnext := hnext[id := slots[h]];
      slots := slots[h := id];
      table := table[h := [id] + table[h]];
    }

    /** The linking of `lru_set`: a new item comes first. */
    method ListInsert(id: nat)
      requires TwoWay(next, prev, head, tail, list) && NoDup(list) && id !in list && id != 0
      modifies this`next, this`prev, this`head, this`tail, this`list
      ensures TwoWay(next, prev, head, tail, list) && list == [id] + old(list)
    {
      hide TwoWay, NoDup;
      ListPushed(next, prev, head, tail, list, id);
      prev := prev[id := 0];
      next := next[id := head];
      if next[id] != 0 {
        prev := prev[next[id] := id];
      }
      head := id;
      if tail == 0 {
        tail := id;
      }
      list := [id] + list;
    }

    /** The end of `lru_set`: a new item comes first in the list and in the chain of `key`. */
    method Link(x: Item, key: Bytes)
      requires Shape() && top > 0 && (forall id | id in item :: id < top) && |x.key| < 256
      modifies this`item, this`next, this`prev, this`hnext, this`head, this`tail, this`slots, this`list, this`table,
        this`top
      ensures Linked() && item == old(item)[old(top) := x] && list == [old(top)] + old(list) && top == old(top) + 1
      ensures Entries(item, list) == [x] + old(Entries(item, list)) && |table| == |old(table)|
      ensures Shape() <==>
        hash(key) % |table| == hash(x.key) % |table| && forall id | id in old(item) :: old(item)[id].key != x.key
    {
      hide NoDup, Listed, Hashed, TwoWay, Chains, Entries, ChainsIn, Short;
      var id := top;
      ChainFacts(hnext, slots, table, 0);
      var h := hash(key) % |slots|;
      Unlisted(item, list, table, hash, id);
      EntriesAdded(item, list, id, x);
      ListedWhen(item, list, id, x);
      HashedWhen(item, table, hash, id, x, h);
      ChainsAdded(item, table, id, x, h);
      HashInsert(id, h);
      ListInsert(id);
      item := item[id := x];
      top := top + 1;
    }

    /** `lru_set` once there is memory: the old item of the key goes and the new one is linked. */
    method Replace(key: Bytes, x: Item, old': Option<nat>)
      requires Shape() && OldIs(item, old', key) && |x.key| < 256 && top > 0 && (forall id | id in item :: id < top)
      requires currBytes == Total(Entries(item, list)) + Size(x)
      modifies this
      ensures Linked() && Entries(item, list) == [x] + Others(old(Entries(item, list)), key)
      ensures currBytes == Total(Entries(item, list)) && top > 0 && forall id | id in item :: id < top
      ensures Shape() <==> Fitting(key, x, Entries(item, list)[1..])
      ensures x.key == key ==> Shape()
    {
      hide Hashed, Total, Find, Latest, Others, Listed, TwoWay, Chains, ChainsIn, Short, Entries;
      ghost var e := Entries(item, list);
      if old'.Some? {
        ghost var at := IndexOf(item, list, old'.value, key);
        TotalAt(e, at);
        RemoveItem(old'.value, at);
      } else {
        NoneIn(item, list, key);
      }
      NoneLeft(item, list, e, key);
      TotalSplit([x], Entries(item, list));
      TotalOne(x);
      KeysListed(item, list, x.key);
      Link(x, key);
    }

    /** `lru_set`; `junk` is what the new memory held. */
    method Set(key: Bytes, buf: Bytes, malloc: bool, junk: Bytes) returns (ret: nat)
      requires Valid() && |junk| == |key| + 1 + |buf|
      modifies this
      ensures var x := Stored(key, buf, junk);
        && (Size(x) > maxBytes ==> Valid() && Contents() == old(Contents()) && ret == 0)
        && (Size(x) <= maxBytes && malloc ==>
              && Linked() && ret == |buf|
              && Entries(item, list) == [x] + Latest(Others(old(Contents()), key), maxBytes - Size(x))
              && (|key| < 256 ==> Valid()) && (Valid() <==> Fitting(key, x, Entries(item, list)[1..])))
        && (Size(x) <= maxBytes && !malloc ==>
              && Valid() && Others(Contents(), key) == Latest(Others(old(Contents()), key), maxBytes - Size(x))
              && Find(Contents(), key) == Find(old(Contents()), key) && ret == 0)
    {
      hide Hashed, Total, Find, Latest, Others, Listed, TwoWay, Chains, Stored, ChainsIn, Short, Entries;
      var old' := Search(key);
      var x := Stored(key, buf, junk);
      StoredWhen(key, buf, junk);
      var ok := AllocItem(HEADER + |junk|, old', malloc, key);
      if !ok {
        return 0;
      }
      LatestIs(Others(old(Contents()), key), maxBytes - Size(x));
      TotalSplit([x], Others(Entries(item, list), key));
      TotalOne(x);
      Replace(key, x, old');
      ret := |buf|;
    }

    /** `lru_remove` */
    method Remove(key: Bytes) returns (ret: nat)
      requires Valid()
      modifies this`item, this`next, this`prev, this`hnext, this`head, this`tail, this`slots, this`list, this`table,
        this`currBytes
      ensures Valid() && Contents() == Others(old(Contents()), key)
        && ret == if Find(old(Contents()), key).Some? then 1 else 0
    {
      hide Hashed, Total, Find, Others, Listed, TwoWay, Chains;
      var r := Search(key);
      OldSize(item, list, r, key);
      if r.Some? {
        ghost var at := IndexOf(item, list, r.value, key);
        TotalAt(Entries(item, list), at);
        FindAt(Entries(item, list), at);
        RemoveItem(r.value, at);
        return 1;
      }
      NoneIn(item, list, key);
      ret := 0;
    }
  }

  /** The item that a set is about to replace */
  ghost predicate OldIs(item: Items, old': Option<nat>, key: Bytes) {
    (old'.Some? ==> old'.value in item && item[old'.value].key == key)
      && (old'.None? ==> forall id | id in item :: item[id].key != key)
  }

  lemma {:induction false} ListedNoDup(item: Items, list: seq<nat>)
    requires Listed(item, list)
    ensures NoDup(list)
  {
  }

  lemma {:induction false} NoneIn(item: Items, list: seq<nat>, key: Bytes)
    requires Listed(item, list) && forall id | id in item :: item[id].key != key
    ensures Others(Entries(item, list), key) == Entries(item, list) && Find(Entries(item, list), key) == None
  {
    hide DistinctKeys, NoDup, Others, Find;
    OthersNone(Entries(item, list), key);
  }

  lemma {:induction false} TotalAt(e: seq<Item>, i: nat)
    requires i < |e|
    ensures Total(e) >= Size(e[i])
  {
    if i < |e| - 1 { TotalAt(e[..|e| - 1], i); }
  }

  /** Where an item is in the list, and what taking it out leaves */
  lemma {:induction false} IndexOf(item: Items, list: seq<nat>, id: nat, key: Bytes) returns (at: nat)
    requires Listed(item, list) && id in item && item[id].key == key
    ensures at < |list| && list[at] == id && DistinctKeys(Entries(item, list))
    ensures var e := Entries(item, list);
      e[..at] + e[at + 1..] == Others(e, key) && Total(Others(e, key)) == Total(e) - Size(item[id])
  {
    hide Total, Others, DistinctKeys, NoDup;
    at :| 0 <= at < |list| && list[at] == id;
    var e := Entries(item, list);
    assert e == e[..at] + [e[at]] + e[at + 1..];
    TakenOut(e[..at], e[at], e[at + 1..]);
  }

  lemma {:induction false} NoneLeft(item: Items, list: seq<nat>, e: seq<Item>, key: Bytes)
    requires Listed(item, list) && Entries(item, list) == Others(e, key)
    ensures forall id | id in item :: item[id].key != key
  {
    OthersMembers(e, key);
    forall id | id in item ensures item[id].key != key {
      var i :| 0 <= i < |list| && list[i] == id;
      assert Entries(item, list)[i] == item[id];
    }
  }

  lemma {:induction false} OthersMembers(e: seq<Item>, key: Bytes)
    ensures forall i | 0 <= i < |Others(e, key)| :: Others(e, key)[i].key != key
  {
    if e != [] { OthersMembers(e[..|e| - 1], key); }
  }

  lemma {:induction false} OldKept(item: Items, list: seq<nat>, old': Option<nat>, key: Bytes, i: nat)
    requires Listed(item, list) && OldIs(item, old', key) && i < |list| && (old'.Some? ==> list[i] != old'.value)
    ensures list[i] in item && item[list[i]].key != key && OldIs(item - {list[i]}, old', key)
    ensures Entries(item, list)[i] == item[list[i]]
  {
    hide Entries, DistinctKeys, NoDup;
    if old'.Some? && item[list[i]].key == key {
      KeyIsItem(item, list, list[i], old'.value);
    }
  }

  /** What stands behind the item that goes is at most the one to be replaced. */
  lemma {:induction false} OldBehind(item: Items, list: seq<nat>, old': Option<nat>, key: Bytes, i: nat)
    requires Listed(item, list) && OldIs(item, old', key) && i < |list|
    requires i == |list| - 1 || (i == |list| - 2 && old'.Some? && list[|list| - 1] == old'.value)
    ensures Others(Entries(item, list)[i + 1..], key) == []
  {
    hide DistinctKeys, NoDup, Others;
    var b := Entries(item, list)[i + 1..];
    if b != [] {
      assert b == [item[old'.value]];
      OthersOne(item[old'.value], key);
    } else {
      OthersSame(b, key);
    }
  }

  /** The item that goes is the oldest of the others. */
  lemma {:induction false} Oldest(item: Items, list: seq<nat>, old': Option<nat>, key: Bytes, i: nat, room: int)
    requires Listed(item, list) && OldIs(item, old', key) && i < |list| && (old'.Some? ==> list[i] != old'.value)
    requires i == |list| - 1 || (i == |list| - 2 && old'.Some? && list[|list| - 1] == old'.value)
    requires Total(Others(Entries(item, list), key)) > room
    ensures var e := Entries(item, list); var f := e[..i] + e[i + 1..];
      && Latest(Others(f, key), room) == Latest(Others(e, key), room) && Find(f, key) == Find(e, key)
      && Total(f) == Total(e) - Size(e[i]) && e[i] == item[list[i]]
    ensures OldIs(item - {list[i]}, old', key)
  {
    hide Total, Others, Latest, Find, Listed, OldIs;
    var e := Entries(item, list);
    var a, x, b := e[..i], e[i], e[i + 1..];
    assert e == a + [x] + b;
    OldKept(item, list, old', key, i);
    OldBehind(item, list, old', key, i);
    DistinctListed(item, list);
    LatestDropped(a, x, b, key, room);
    TakenOut(a, x, b);
    FindDropped(a, x, b, key);
  }

  lemma {:induction false} DistinctListed(item: Items, list: seq<nat>)
    requires Listed(item, list)
    ensures DistinctKeys(Entries(item, list)) && forall i | 0 <= i < |list| :: list[i] in item
  {
  }

  lemma {:induction false} FindDropped(a: seq<Item>, x: Item, b: seq<Item>, key: Bytes)
    requires x.key != key
    ensures Find(a + b, key) == Find(a + [x] + b, key)
  {
    if a == [] {
      assert a + b == b && (a + [x] + b)[1..] == b;
    } else {
      assert (a + b)[1..] == a[1..] + b && (a + [x] + b)[1..] == a[1..] + [x] + b;
      FindDropped(a[1..], x, b, key);
    }
  }

  lemma {:induction false} OnlyOld(item: Items, list: seq<nat>, old': Option<nat>, key: Bytes)
    requires Listed(item, list) && OldIs(item, old', key) && |list| <= 1
      && (|list| == 1 ==> old'.Some? && list[0] == old'.value)
    ensures Total(Others(Entries(item, list), key)) == 0
  {
    var e := Entries(item, list);
    if |list| == 1 {
      assert e == [e[0]];
      OthersOne(e[0], key);
    }
  }

  lemma {:induction false} RemoveFacts(item: Items, list: seq<nat>, table: seq<seq<nat>>, hash: Bytes -> nat, id: nat,
                                       at: nat)
    requires Listed(item, list) && Hashed(item, table, hash) && at < |list| && list[at] == id
    ensures |table| > 0 && id in item && Entries(item, list)[at] == item[id] && NoDup(list)
    ensures var c := table[hash(item[id].key) % |table|]; id in c && forall j | 0 <= j < |c| :: c[j] in item
  {
    hide NoDup, DistinctKeys;
    var h := hash(item[id].key) % |table|;
    assert ChainOk(item, table[h], h, hash, |table|);
    assert id in list;
    forall j | 0 <= j < |table[h]| ensures table[h][j] in item { assert table[h][j] in table[h]; }
  }

  /** No item is in two chains. */
  lemma {:induction false} HashedApart(item: Items, table: seq<seq<nat>>, hash: Bytes -> nat, h: nat)
    requires Hashed(item, table, hash) && h < |table|
    ensures ApartChains(table) && NoDup(table[h]) && forall j | 0 <= j < |table[h]| :: table[h][j] in item
  {
    hide NoDup;
    forall g, k | 0 <= g < |table| && 0 <= k < |table| && g != k ensures forall x | x in table[g] :: x !in table[k] {
      assert ChainOk(item, table[g], g, hash, |table|) && ChainOk(item, table[k], k, hash, |table|);
    }
    assert ChainOk(item, table[h], h, hash, |table|);
    forall j | 0 <= j < |table[h]| ensures table[h][j] in item { assert table[h][j] in table[h]; }
  }

  lemma {:induction false} OnePlace(l: seq<nat>, i: nat, k: nat)
    requires NoDup(l) && i < |l| && k < |l| && l[i] == l[k]
    ensures i == k
  {
  }

  lemma {:induction false} Unlisted(item: Items, list: seq<nat>, table: seq<seq<nat>>, hash: Bytes -> nat, id: nat)
    requires Listed(item, list) && Hashed(item, table, hash) && id !in item
    ensures |table| > 0 && id !in list && NoDup(list) && forall g | 0 <= g < |table| :: id !in table[g]
  {
    hide NoDup, DistinctKeys;
    forall g | 0 <= g < |table| ensures id !in table[g] {
      assert ChainOk(item, table[g], g, hash, |table|);
    }
  }

  /** The bytes of the others, when the item to be replaced does not count */
  lemma {:induction false} OldSize(item: Items, list: seq<nat>, old': Option<nat>, key: Bytes)
    requires Listed(item, list) && OldIs(item, old', key)
    ensures Total(Others(Entries(item, list), key)) ==
      Total(Entries(item, list)) - if old'.Some? then Size(item[old'.value]) else 0
  {
    hide Total, Others, Listed, Entries;
    if old'.Some? {
      var at := IndexOf(item, list, old'.value, key);
    } else {
      NoneIn(item, list, key);
    }
  }

  lemma {:induction false} EnoughRoom(e: seq<Item>, room: int)
    requires Total(e) <= room
    ensures Latest(e, room) == e
  {
  }

  /** What was set is found again if and only if the key is shorter than 256 bytes. */
  method SetThenSearch(c: Cache, key: Bytes, buf: Bytes, junk: Bytes) returns (r: Option<nat>)
    requires c.Valid() && |junk| == |key| + 1 + |buf| && HEADER + |junk| <= c.maxBytes
    modifies c
    ensures r.Some? <==> |key| < 256
    ensures r.Some? ==> r.value in c.item && c.item[r.value] == Item(key, buf)
  {
    hide Total, Stored, TwoWay, Chains, Find, Hashed, Latest, Others, Listed, ChainsIn, Short, Entries;
    StoredWhen(key, buf, junk);
    var ret := c.Set(key, buf, true, junk);
    r := c.Search(key);
    if |key| < 256 {
      FirstFound(c.item, c.list, Item(key, buf), r);
    }
  }

  lemma {:induction false} FirstFound(item: Items, list: seq<nat>, x: Item, r: Option<nat>)
    requires Listed(item, list) && list != [] && Entries(item, list)[0] == x && OldIs(item, r, x.key)
    ensures r.Some? && item[r.value] == x
  {
    hide DistinctKeys, NoDup;
    assert list[0] in item && item[list[0]] == x;
    if r.Some? { KeyIsItem(item, list, r.value, list[0]); }
  }

  /** A key of 256 bytes is set, and is not found. */
  method LongKeyLost() returns (c: Cache, ret: nat, r: Option<nat>)
    ensures fresh(c) && ret == 1 && c.Linked() && |c.list| == 1 && r.None?
  {
    hide Total, Stored, TwoWay, Chains, Find;
    c := new Cache(0, 1, (k: Bytes) => 0);
    var key: Bytes, junk: Bytes := seq(256, _ => 0), seq(258, _ => 0);
    StoredWhen(key, [7], junk);
    ret := c.Set(key, [7], true, junk);
    r := c.Search(key);
  }
}
