/**
 The node cache of fs/vfs.c: nodes hashed by mount and path, each with a reference count, taken for
 every component of a path by an acquisition and given back by a release that walks the path up.

 `held` lists the acquisitions that are outstanding, each by its mount and components.  The count of
 a node is the number of them that pass through it, and one more for the root of a mount.
 */
module Vfs {
  import opened Lists
  import opened VfsPaths
  import opened Wrappers

  datatype Node = Node(mount: nat, path: string, refs: int)

  datatype Mount = Mount(path: string, root: nat, refs: int)

  /** A place in the tree of a mount. */
  datatype Key = Key(mount: nat, comps: seq<string>)

  /** What the file system answers when a new node is to be filled in. */
  datatype Reply = Error | Found(dir: bool)

  datatype Outcome = Acquired(node: nat) | NoMount | NoNode | LookupFailed | NotDirectory

  /** Whether the source returns zero: also for a component that is not a directory, without a node. */
  predicate ReportsSuccess(o: Outcome) {
    o.Acquired? || o.NotDirectory?
  }

  /** What becomes of a walk: it arrives, or it stops at a component for a reason. */
  datatype Fate = Arrives | Stops(at: nat, why: Outcome)

  type Nodes = map<nat, Node>
  type Mounts = map<nat, Mount>
  type Tree = map<Key, nat>
  type Keys = map<nat, Key>

  // ---------------------------------------------------------------- the cache

  ghost predicate NodeOk(n: Node, k: Key) {
    n.mount == k.mount && Names(k.comps) && n.path == PathOf(k.comps) && |n.path| < VFS_MAX_PATH && n.refs > 0
  }

  /** Each node has its own place, and no place has two nodes. */
  ghost predicate Keyed(node: Nodes, key: Keys, tree: Tree) {
    && key.Keys == node.Keys
    && (forall id | id in node :: id in key && key[id] in tree && tree[key[id]] == id && NodeOk(node[id], key[id]))
    && (forall k | k in tree :: tree[k] in node && tree[k] in key && key[tree[k]] == k)
  }

  ghost predicate InBucket(node: Nodes, bucket: seq<seq<nat>>, id: nat)
    requires id in node
  {
    var h := Hash(node[id].mount, node[id].path);
    h < |bucket| && id in bucket[h]
  }

  ghost predicate BucketOk(node: Nodes, list: seq<nat>, b: nat) {
    && NoDup(list)
    && forall i | 0 <= i < |list| :: list[i] in node && Hash(node[list[i]].mount, node[list[i]].path) == b
  }

  /** Each node is in the list of its hash, once, and in no other. */
  ghost predicate Indexed(node: Nodes, bucket: seq<seq<nat>>) {
    && |bucket| == VFS_NODE_HASH_SIZE
    && (forall id | id in node :: InBucket(node, bucket, id))
    && (forall b | 0 <= b < |bucket| :: BucketOk(node, bucket[b], b))
  }

  ghost function OfMount(node: Nodes, m: nat): set<nat> {
    set id | id in node && node[id].mount == m
  }

  /** `m_refcnt` is the number of cached nodes of the mount. */
  ghost predicate Counted(node: Nodes, mount: Mounts) {
    && (forall id | id in node :: node[id].mount in mount)
    && (forall m | m in mount :: mount[m].refs == |OfMount(node, m)|)
  }

  ghost predicate Rooted(tree: Tree, mount: Mounts, mnts: seq<nat>) {
    && (forall m | m in mount :: Key(m, []) in tree && tree[Key(m, [])] == mount[m].root)
    && (forall i | 0 <= i < |mnts| :: mnts[i] in mount)
  }

  // ---------------------------------------------------------------- the counts

  /** The count of the node at a place, zero where there is none. */
  ghost function RefsOf(node: Nodes, tree: Tree, k: Key): int {
    if k in tree && tree[k] in node then node[tree[k]].refs else 0
  }

  ghost predicate Passes(h: Key, k: Key) {
    h.mount == k.mount && k.comps <= h.comps
  }

  /** How many acquisitions pass through a place. */
  ghost function Through(held: seq<Key>, k: Key): nat {
    if held == [] then 0 else (if Passes(held[0], k) then 1 else 0) + Through(held[1..], k)
  }

  ghost function Total(held: seq<Key>, mounts: set<nat>, k: Key): nat {
    Through(held, k) + if k.comps == [] && k.mount in mounts then 1 else 0
  }

  ghost predicate Agree(node: Nodes, tree: Tree, held: seq<Key>, mounts: set<nat>) {
    forall k :: RefsOf(node, tree, k) == Total(held, mounts, k)
  }

  /** The count at one place has changed by `d`, all others are as before. */
  ghost predicate Bumped(node: Nodes, tree: Tree, node': Nodes, tree': Tree, k: Key, d: int) {
    forall j :: RefsOf(node', tree', j) == RefsOf(node, tree, j) + if j == k then d else 0
  }

  lemma {:induction false} ThroughSplit(a: seq<Key>, b: seq<Key>, k: Key)
    ensures Through(a + b, k) == Through(a, k) + Through(b, k)
  {
    if a == [] {
      assert a + b == b;
    } else {
      assert (a + b)[1..] == a[1..] + b;
      ThroughSplit(a[1..], b, k);
    }
  }

  lemma {:induction false} ThroughOne(h: Key, k: Key)
    ensures Through([h], k) == if Passes(h, k) then 1 else 0
  {
    assert Through([h][1..], k) == 0;
  }

  /** Going one component down takes one more reference, on the node reached. */
  lemma {:induction false} HoldDown(held: seq<Key>, mounts: set<nat>, m: nat, c: seq<string>, x: string, k: Key)
    ensures Total(held + [Key(m, c + [x])], mounts, k) == Total(held + [Key(m, c)], mounts, k)
      + if k == Key(m, c + [x]) then 1 else 0
  {
    hide Through;
    ThroughSplit(held, [Key(m, c + [x])], k);
    ThroughSplit(held, [Key(m, c)], k);
    ThroughOne(Key(m, c + [x]), k);
    ThroughOne(Key(m, c), k);
    PrefixOfSnoc(k.comps, c, x);
  }

  lemma {:induction false} PrefixOfSnoc(p: seq<string>, c: seq<string>, x: string)
    ensures p <= c + [x] <==> p <= c || p == c + [x]
    ensures !(c + [x] <= c)
  {
    if p <= c + [x] && |p| <= |c| {
      assert p == (c + [x])[..|p|] == c[..|p|];
    }
    if p <= c {
      assert (c + [x])[..|p|] == c[..|p|];
    }
  }

  lemma {:induction false} HoldRoot(held: seq<Key>, mounts: set<nat>, m: nat, k: Key)
    ensures Total(held + [Key(m, [])], mounts, k) == Total(held, mounts, k) + if k == Key(m, []) then 1 else 0
  {
    hide Through;
    ThroughSplit(held, [Key(m, [])], k);
    ThroughOne(Key(m, []), k);
  }

  /** The order in which acquisitions are listed plays no part. */
  lemma {:induction false} HoldMoved(held: seq<Key>, mounts: set<nat>, i: nat, k: Key)
    requires i < |held|
    ensures Total(held[..i] + held[i + 1..] + [held[i]], mounts, k) == Total(held, mounts, k)
  {
    hide Through;
    var a, b, x := held[..i], held[i + 1..], [held[i]];
    assert held == a + (x + b);
    ThroughSplit(a, x + b, k);
    ThroughSplit(x, b, k);
    ThroughSplit(a + b, x, k);
    ThroughSplit(a, b, k);
  }

  lemma {:induction false} AgreeDown(node: Nodes, tree: Tree, node': Nodes, tree': Tree, held: seq<Key>,
                                     mounts: set<nat>, m: nat, c: seq<string>, x: string)
    requires Agree(node, tree, held + [Key(m, c)], mounts) && Bumped(node, tree, node', tree', Key(m, c + [x]), 1)
    ensures Agree(node', tree', held + [Key(m, c + [x])], mounts)
  {
    hide RefsOf, Total;
    forall k ensures RefsOf(node', tree', k) == Total(held + [Key(m, c + [x])], mounts, k) {
      HoldDown(held, mounts, m, c, x, k);
    }
  }

  lemma {:induction false} AgreeUp(node: Nodes, tree: Tree, node': Nodes, tree': Tree, held: seq<Key>,
                                   mounts: set<nat>, m: nat, c: seq<string>)
    requires c != [] && Agree(node, tree, held + [Key(m, c)], mounts) && Bumped(node, tree, node', tree', Key(m, c), -1)
    ensures Agree(node', tree', held + [Key(m, Front(c))], mounts)
  {
    hide RefsOf, Total;
    assert Front(c) + [Last(c)] == c;
    forall k ensures RefsOf(node', tree', k) == Total(held + [Key(m, Front(c))], mounts, k) {
      HoldDown(held, mounts, m, Front(c), Last(c), k);
    }
  }

  lemma {:induction false} AgreeRoot(node: Nodes, tree: Tree, node': Nodes, tree': Tree, held: seq<Key>,
                                     mounts: set<nat>, m: nat)
    ensures Agree(node, tree, held, mounts) && Bumped(node, tree, node', tree', Key(m, []), 1) ==>
      Agree(node', tree', held + [Key(m, [])], mounts)
    ensures Agree(node, tree, held + [Key(m, [])], mounts) && Bumped(node, tree, node', tree', Key(m, []), -1) ==>
      Agree(node', tree', held, mounts)
  {
    hide RefsOf, Total;
    forall k ensures Total(held + [Key(m, [])], mounts, k) == Total(held, mounts, k) + if k == Key(m, []) then 1
      else 0 {
      HoldRoot(held, mounts, m, k);
    }
  }

  lemma {:induction false} AgreeMoved(node: Nodes, tree: Tree, held: seq<Key>, mounts: set<nat>, i: nat)
    requires i < |held| && Agree(node, tree, held, mounts)
    ensures Agree(node, tree, held[..i] + held[i + 1..] + [held[i]], mounts)
  {
    hide RefsOf, Total;
    forall k ensures RefsOf(node, tree, k) == Total(held[..i] + held[i + 1..] + [held[i]], mounts, k) {
      HoldMoved(held, mounts, i, k);
    }
  }

  /** A node that somebody holds, or that a held path leads through, is cached. */
  lemma {:induction false} HeldIsCached(node: Nodes, tree: Tree, held: seq<Key>, mounts: set<nat>, h: Key, k: Key)
    requires Agree(node, tree, held + [h], mounts) && Passes(h, k)
    ensures k in tree && tree[k] in node && RefsOf(node, tree, k) >= 1
  {
    ThroughSplit(held, [h], k);
    ThroughOne(h, k);
    assert RefsOf(node, tree, k) == Total(held + [h], mounts, k);
  }

  // ---------------------------------------------------------------- one node changes

  ghost predicate Cache(node: Nodes, key: Keys, tree: Tree, bucket: seq<seq<nat>>, mount: Mounts) {
    Keyed(node, key, tree) && Indexed(node, bucket) && Counted(node, mount)
  }

  lemma {:induction false} CountAdjusted(node: Nodes, key: Keys, tree: Tree, bucket: seq<seq<nat>>, mount: Mounts,
                                         id: nat, d: int)
    requires Cache(node, key, tree, bucket, mount) && id in node && id in key && node[id].refs + d > 0
    ensures var node' := node[id := node[id].(refs := node[id].refs + d)];
      Cache(node', key, tree, bucket, mount) && Bumped(node, tree, node', tree, key[id], d)
  {
    hide Names, PathOf, Indexed, Counted;
    var n' := node[id].(refs := node[id].refs + d);
    IndexAdjusted(node, bucket, id, n');
    CountedAdjusted(node, mount, id, n');
  }

  lemma {:induction false} IndexAdjusted(node: Nodes, bucket: seq<seq<nat>>, id: nat, n: Node)
    requires Indexed(node, bucket) && id in node && n.mount == node[id].mount && n.path == node[id].path
    ensures Indexed(node[id := n], bucket)
  {
    hide Hash, NoDup;
    var node' := node[id := n];
    forall x | x in node' ensures InBucket(node', bucket, x) { assert InBucket(node, bucket, x); }
    forall b | 0 <= b < |bucket| ensures BucketOk(node', bucket[b], b) { assert BucketOk(node, bucket[b], b); }
  }

  lemma {:induction false} CountedAdjusted(node: Nodes, mount: Mounts, id: nat, n: Node)
    requires Counted(node, mount) && id in node && n.mount == node[id].mount
    ensures Counted(node[id := n], mount)
  {
    forall m | m in mount ensures OfMount(node[id := n], m) == OfMount(node, m) {
    }
  }

  /** A list holds the node of a place if and only if the place is cached; it is the one that matches. */
  lemma {:induction false} MatchIsPlace(node: Nodes, key: Keys, tree: Tree, k: Key, id: nat)
    requires Keyed(node, key, tree) && id in node && Names(k.comps)
    ensures node[id].mount == k.mount && node[id].path == PathOf(k.comps) <==> k in tree && tree[k] == id
  {
    if node[id].mount == k.mount && node[id].path == PathOf(k.comps) {
      PathInjective(key[id].comps, k.comps);
    }
  }

  lemma {:induction false} PlaceInBucket(node: Nodes, key: Keys, tree: Tree, bucket: seq<seq<nat>>, k: Key)
    requires Keyed(node, key, tree) && Indexed(node, bucket) && k in tree && Names(k.comps)
    ensures var h := Hash(k.mount, PathOf(k.comps)); h < |bucket| && tree[k] in bucket[h]
  {
    hide Hash;
    MatchIsPlace(node, key, tree, k, tree[k]);
    assert InBucket(node, bucket, tree[k]);
  }

  lemma {:induction false} NodeAdded(node: Nodes, key: Keys, tree: Tree, bucket: seq<seq<nat>>, mount: Mounts, k: Key,
                                     id: nat)
    requires Cache(node, key, tree, bucket, mount) && id !in node && k !in tree && Names(k.comps)
      && |PathOf(k.comps)| < VFS_MAX_PATH
    requires k.mount in mount
    ensures var h, node' := Hash(k.mount, PathOf(k.comps)), node[id := Node(k.mount, PathOf(k.comps), 1)];
      && h < |bucket|
      && Cache(node', key[id := k], tree[k := id], bucket[h := [id] + bucket[h]],
         mount[k.mount := mount[k.mount].(refs := mount[k.mount].refs + 1)])
      && Bumped(node, tree, node', tree[k := id], k, 1)
  {
    hide Names, PathOf, NoDup, Hash, Indexed, Counted;
    IndexAdded(node, bucket, Node(k.mount, PathOf(k.comps), 1), id);
    CountedAdded(node, mount, Node(k.mount, PathOf(k.comps), 1), id);
  }

  lemma {:induction false} IndexAdded(node: Nodes, bucket: seq<seq<nat>>, n: Node, id: nat)
    requires Indexed(node, bucket) && id !in node
    ensures var h := Hash(n.mount, n.path); h < |bucket| && Indexed(node[id := n], bucket[h := [id] + bucket[h]])
  {
    hide Hash, NoDup;
    var h, node' := Hash(n.mount, n.path), node[id := n];
    var bucket' := bucket[h := [id] + bucket[h]];
    forall x | x in node' ensures InBucket(node', bucket', x) {
      if x != id { assert InBucket(node, bucket, x); }
    }
    forall b | 0 <= b < |bucket'| ensures BucketOk(node', bucket'[b], b) {
      assert BucketOk(node, bucket[b], b);
      if b == h { NoDupAdd(bucket[h], id); }
    }
  }

  lemma {:induction false} CountedAdded(node: Nodes, mount: Mounts, n: Node, id: nat)
    requires Counted(node, mount) && id !in node && n.mount in mount
    ensures Counted(node[id := n], mount[n.mount := mount[n.mount].(refs := mount[n.mount].refs + 1)])
  {
    hide OfMount;
    var node' := node[id := n];
    forall m | m in mount ensures |OfMount(node', m)| == |OfMount(node, m)| + if m == n.mount then 1 else 0 {
      OfMountAdded(node, n, id, m);
    }
  }

  lemma {:induction false} OfMountAdded(node: Nodes, n: Node, id: nat, m: nat)
    requires id !in node
    ensures |OfMount(node[id := n], m)| == |OfMount(node, m)| + if m == n.mount then 1 else 0
  {
    if m == n.mount {
      assert OfMount(node[id := n], m) == OfMount(node, m) + {id};
    } else {
      assert OfMount(node[id := n], m) == OfMount(node, m);
    }
  }

  lemma {:induction false} NodeRemoved(node: Nodes, key: Keys, tree: Tree, bucket: seq<seq<nat>>, mount: Mounts,
                                       id: nat)
    requires Cache(node, key, tree, bucket, mount) && id in node && id in key && node[id].refs == 1
    ensures var h, k := Hash(node[id].mount, node[id].path), key[id];
      && h < |bucket| && k.mount == node[id].mount && k.mount in mount
      && Cache(node - {id}, key - {id}, tree - {k}, bucket[h := Without(bucket[h], id)],
         mount[k.mount := mount[k.mount].(refs := mount[k.mount].refs - 1)])
      && Bumped(node, tree, node - {id}, tree - {k}, k, -1)
  {
    hide Names, PathOf, NoDup, Hash, Indexed, Counted, Without;
    IndexRemoved(node, bucket, id);
    CountedRemoved(node, mount, id);
  }

  lemma {:induction false} IndexRemoved(node: Nodes, bucket: seq<seq<nat>>, id: nat)
    requires Indexed(node, bucket) && id in node
    ensures var h := Hash(node[id].mount, node[id].path);
      h < |bucket| && Indexed(node - {id}, bucket[h := Without(bucket[h], id)])
  {
    hide Hash, NoDup, Without;
    var h, node' := Hash(node[id].mount, node[id].path), node - {id};
    assert InBucket(node, bucket, id) && BucketOk(node, bucket[h], h);
    WithoutMembers(bucket[h], id);
    var bucket' := bucket[h := Without(bucket[h], id)];
    forall x | x in node' ensures InBucket(node', bucket', x) {
      assert InBucket(node, bucket, x);
    }
    forall b | 0 <= b < |bucket'| ensures BucketOk(node', bucket'[b], b) {
      BucketShrinks(node, bucket[b], bucket'[b], b, id);
    }
  }

  lemma {:induction false} BucketShrinks(node: Nodes, list: seq<nat>, list': seq<nat>, b: nat, id: nat)
    requires BucketOk(node, list, b) && NoDup(list') && id in node && forall x | x in list' :: x in list && x != id
    requires BucketOk(node, list, b)
    ensures BucketOk(node - {id}, list', b)
  {
    hide Hash, NoDup;
    forall i | 0 <= i < |list'|
      ensures list'[i] in node - {id} && Hash(node[list'[i]].mount, node[list'[i]].path) == b {
      assert list'[i] in list;
    }
  }

  lemma {:induction false} CountedRemoved(node: Nodes, mount: Mounts, id: nat)
    requires Counted(node, mount) && id in node
    ensures node[id].mount in mount
    ensures Counted(node - {id},
      mount[node[id].mount := mount[node[id].mount].(refs := mount[node[id].mount].refs - 1)])
  {
    hide OfMount;
    var node' := node - {id};
    forall m | m in mount ensures |OfMount(node', m)| == |OfMount(node, m)| - if m == node[id].mount then 1 else 0 {
      assert node == node'[id := node[id]];
      OfMountAdded(node', node[id], id, m);
    }
  }

  // ---------------------------------------------------------------- the operations

  ghost predicate SameMounts(a: Mounts, b: Mounts) {
    a.Keys == b.Keys && forall m | m in a :: m in b && a[m].path == b[m].path && a[m].root == b[m].root
  }

  /** The mount in the list that covers most of the path, the first of them. */
  ghost predicate Serves(path: string, mnts: seq<nat>, mount: Mounts, m: nat, i: nat)
    requires forall j | 0 <= j < |mnts| :: mnts[j] in mount
  {
    && i < |mnts| && mnts[i] == m && MatchLen(path, mount[m].path) > 0
    && (forall j | 0 <= j < |mnts| :: MatchLen(path, mount[mnts[j]].path) <= MatchLen(path, mount[m].path))
    && (forall j | 0 <= j < i :: MatchLen(path, mount[mnts[j]].path) < MatchLen(path, mount[m].path))
  }

  class NodeCache {
    var node: Nodes
    var bucket: seq<seq<nat>>
    var mount: Mounts
    /** `mnt_list` */
    var mnts: seq<nat>
    /** Addresses from here on are not in use; `calloc` hands them out. */
    var next: nat
    ghost var key: Keys
    ghost var tree: Tree
    ghost var held: seq<Key>

    ghost predicate Cached()
      reads this
    {
      && Cache(node, key, tree, bucket, mount)
      && Rooted(tree, mount, mnts)
      && forall id | id in node :: id < next
    }

    ghost predicate Valid()
      reads this
    {
      Cached() && Agree(node, tree, held, mount.Keys)
    }

    constructor ()
      ensures Valid() && held == [] && mnts == [] && mount == map[] && node == map[]
    {
      node, mount, mnts, next := map[], map[], [], 0;
      bucket := seq(VFS_NODE_HASH_SIZE, _ => []);
      key, tree, held := map[], map[], [];
    }

    /** `vfs_node_lookup` */
    method Lookup(m: nat, path: string, ghost k: Key) returns (r: Option<nat>)
      requires Cached() && k.mount == m && Names(k.comps) && path == PathOf(k.comps)
      modifies this`node
      ensures Cached()
      ensures r == if k in tree then Some(tree[k]) else None
      ensures r.None? ==> node == old(node)
      ensures r.Some? ==>
        && r.value in old(node)
        && node == old(node)[r.value := old(node)[r.value].(refs := old(node)[r.value].refs + 1)]
      ensures r.Some? ==> Bumped(old(node), tree, node, tree, k, 1)
    {
      hide Hash, NoDup, Names, PathOf, Bumped, Keyed, Counted, BucketOk, InBucket;
      var h := Hash(m, path);
      var i := 0;
      while i < |bucket[h]|
        invariant 0 <= i <= |bucket[h]| && node == old(node)
        invariant forall j | 0 <= j < i :: !(k in tree && tree[k] == bucket[h][j])
      {
        var id := bucket[h][i];
        BucketMember(node, bucket, h, i);
        MatchIsPlace(node, key, tree, k, id);
        if node[id].mount == m && node[id].path == path {
          KeyOf(node, key, tree, k);
          CountAdjusted(node, key, tree, bucket, mount, id, 1);
          node := node[id := node[id].(refs := node[id].refs + 1)];
          return Some(id);
        }
        i := i + 1;
      }
      if k in tree {
        PlaceInBucket(node, key, tree, bucket, k);
        assert false;
      }
      r := None;
    }

    /** `vfs_node_get`: `vget` is whether the allocation and the file system's `vget` succeed. */
    method Get(m: nat, path: string, vget: bool, ghost k: Key) returns (r: Option<nat>)
      requires Cached() && k.mount == m && m in mount && Names(k.comps) && path == PathOf(k.comps) && k !in tree
      modifies this`node, this`bucket, this`mount, this`next, this`key, this`tree
      ensures Cached() && SameMounts(old(mount), mount)
      ensures r.None? <==> !vget || |path| >= VFS_MAX_PATH
      ensures r.None? ==> node == old(node) && tree == old(tree) && key == old(key)
      ensures r.Some? ==>
        && r.value !in old(node) && node == old(node)[r.value := Node(m, path, 1)]
        && key == old(key)[r.value := k] && tree == old(tree)[k := r.value]
      ensures r.Some? ==> Bumped(old(node), old(tree), node, tree, k, 1)
    {
      hide Hash, Names, PathOf, Bumped, Cache;
      if |path| >= VFS_MAX_PATH || !vget {
        return None;
      }
      NodeAdded(node, key, tree, bucket, mount, k, next);
      var n, h := next, Hash(m, path);
      next := next + 1;
      node := node[n := Node(m, path, 1)];
      mount := mount[m := mount[m].(refs := mount[m].refs + 1)];
      bucket := bucket[h := [n] + bucket[h]];
      key, tree := key[n := k], tree[k := n];
      r := Some(n);
    }

    /** `vfs_node_put` */
    method Put(n: nat)
      requires Cached() && n in node && n in key && (node[n].refs > 1 || key[n].comps != [])
      modifies this`node, this`bucket, this`mount, this`key, this`tree
      ensures Cached() && SameMounts(old(mount), mount)
      ensures n in node <==> old(node[n].refs) > 1
      ensures n in node ==>
        && node == old(node)[n := old(node)[n].(refs := old(node)[n].refs - 1)] && tree == old(tree)
        && key == old(key)
      ensures n !in node ==> node == old(node) - {n} && tree == old(tree) - {old(key)[n]} && key == old(key) - {n}
      ensures Bumped(old(node), old(tree), node, tree, old(key)[n], -1)
    {
      hide Hash, Names, PathOf, Bumped, Cache, Without;
      NodeCounted(node, key, tree, bucket, mount, n);
      if node[n].refs - 1 != 0 {
        CountAdjusted(node, key, tree, bucket, mount, n, -1);
        node := node[n := node[n].(refs := node[n].refs - 1)];
        return;
      }
      NodeRemoved(node, key, tree, bucket, mount, n);
      var m, h := node[n].mount, Hash(node[n].mount, node[n].path);
      bucket := bucket[h := Without(bucket[h], n)];
      mount := mount[m := mount[m].(refs := mount[m].refs - 1)];
      tree := tree - {key[n]};
      key, node := key - {n}, node - {n};
    }

    /** One round of the loop in `vfs_node_release`: a directory on the way up gives back its reference. */
    method PutParent(m: nat, path: string, ghost c: seq<string>, ghost rest: seq<Key>)
      requires Cached() && c != [] && Names(c) && path == Join(c) && Agree(node, tree, rest + [Key(m, c)], mount.Keys)
      modifies this`node, this`bucket, this`mount, this`key, this`tree
      ensures Cached() && SameMounts(old(mount), mount) && Agree(node, tree, rest + [Key(m, Front(c))], mount.Keys)
    {
      hide Cache, Agree, Bumped, Join, Rooted, SameMounts;
      ghost var k := Key(m, c);
      HeldNode(node, key, tree, bucket, mount, rest, k);
      var r := Lookup(m, path, k);
      ghost var node1 := node;
      Put(r.value);
      ghost var node2, was := node, mount;
      BumpedBack(old(node), old(tree), node1, tree, node2, tree, k);
      Put(r.value);
      BumpedSame(node2, old(tree), node, tree, old(node), k);
      SameMountsTrans(old(mount), was, mount);
      AgreeUp(old(node), old(tree), node, tree, rest, mount.Keys, m, c);
    }

    /** `vfs_node_release` of the acquisition that is listed at `i` */
    method Release(n: nat, ghost i: nat)
      requires Valid() && n in node && n in key && i < |held| && held[i] == key[n]
      modifies this`node, this`bucket, this`mount, this`key, this`tree, this`held
      ensures Valid() && SameMounts(old(mount), mount)
      ensures held == old(held)[..i] + old(held)[i + 1..]
    {
      hide Cache, Agree, Bumped, Join, Rooted, SameMounts;
      ghost var rest, k := held[..i] + held[i + 1..], key[n];
      AgreeMoved(node, tree, held, mount.Keys, i);
      NodeCounted(node, key, tree, bucket, mount, n);
      RootNode(node, key, tree, bucket, mount, mnts, n);
      var m := node[n].mount;
      held := rest;
      if mount[m].root == n {
        RootRefs(node, tree, mount, mnts, rest, m);
        Put(n);
        SameMountsKeys(old(mount), mount);
        AgreeRoot(old(node), old(tree), node, tree, rest, mount.Keys, m);
        return;
      }
      var path := node[n].path;
      Put(n);
      SameMountsKeys(old(mount), mount);
      AgreeUp(old(node), old(tree), node, tree, rest, mount.Keys, m, k.comps);
      ghost var c := k.comps;
      while true
        invariant c != [] && Names(c) && path == Join(c) && Cached() && held == rest && SameMounts(old(mount), mount)
          && m in mount
        invariant Agree(node, tree, rest + [Key(m, Front(c))], mount.Keys)
        decreases |c|
      {
        SlashInJoin(c);
        var p := LastSlash(path);
        assert p >= 0;
        LastSlashOfJoin(c, p);
        path := path[..p];
        c := Front(c);
        EmptyJoin(c);
        if path == "" {
          break;
        }
        ghost var was := mount;
        PutParent(m, path, c, rest);
        SameMountsTrans(old(mount), was, mount);
      }
      RootRefs(node, tree, mount, mnts, rest, m);
      RootKey(node, key, tree, bucket, mount, mnts, m);
      ghost var node1, tree1, was := node, tree, mount;
      Put(mount[m].root);
      SameMountsTrans(old(mount), was, mount);
      SameMountsKeys(was, mount);
      AgreeRoot(node1, tree1, node, tree, rest, mount.Keys, m);
    }

    /** The part of `vfs_mount` that gives a mount its root and lists it */
    method AddMount(m: nat, dir: string)
      requires Valid() && m !in mount
      modifies this`node, this`bucket, this`mount, this`mnts, this`next, this`key, this`tree
      ensures Valid() && mnts == [m] + old(mnts) && mount.Keys == old(mount).Keys + {m} && mount[m].path == dir
      ensures forall x | x in old(mount) :: x in mount && mount[x] == old(mount)[x]
      ensures Key(m, []) in tree && tree[Key(m, [])] == mount[m].root && tree.Keys == old(tree).Keys + {Key(m, [])}
    {
      hide Cache, Agree, Hash, Rooted;
      MountAdded(node, key, tree, bucket, mount, held, m, dir, next);
      RootedAdded(tree, mount, mnts, m, Mount(dir, next, 1));
      var n, h := next, Hash(m, "/");
      next := next + 1;
      node, mount := node[n := Node(m, "/", 1)], mount[m := Mount(dir, n, 1)];
      bucket := bucket[h := [n] + bucket[h]];
      key, tree := key[n := Key(m, [])], tree[Key(m, []) := n];
      mnts := [m] + mnts;
    }

    /** `vfs_findroot` */
    method FindRoot(path: string) returns (r: Option<nat>, rest: string, ghost at: nat)
      requires Cached()
      ensures r.None? <==> forall i | 0 <= i < |mnts| :: mnts[i] in mount && MatchLen(path, mount[mnts[i]].path) == 0
      ensures r.Some? ==> r.value in mount && Serves(path, mnts, mount, r.value, at)
      ensures r.Some? ==> |rest| <= |path| && rest == path[|path| - |rest|..]
      ensures r.Some? ==>
        && MatchLen(path, mount[r.value].path) <= |path|
        && Comps(rest) == Comps(path[MatchLen(path, mount[r.value].path)..])
    {
      hide Cache, Comps;
      var i, max := 0, 0;
      r, rest, at := None, "", 0;
      while i < |mnts|
        invariant 0 <= i <= |mnts| && max <= |path|
        invariant forall j | 0 <= j < i :: MatchLen(path, mount[mnts[j]].path) <= max
        invariant r.None? ==> max == 0
        invariant r.Some? ==> at < i && mnts[at] == r.value && MatchLen(path, mount[r.value].path) == max > 0
        invariant r.Some? ==> forall j | 0 <= j < at :: MatchLen(path, mount[mnts[j]].path) < max
      {
        var len := CountMatch(path, mount[mnts[i]].path);
        if len > max {
          max, at := len, i;
          r := Some(mnts[i]);
        }
        i := i + 1;
      }
      if r.Some? {
        rest := path[max..];
        while rest != "" && rest[0] == '/'
          invariant Comps(rest) == Comps(path[max..]) && |rest| <= |path| && rest == path[|path| - |rest|..]
          decreases |rest|
        {
          CompsStep(rest);
          rest := rest[1..];
        }
      }
    }

    /** One component of `vfs_node_acquire`; `slash` is whether a separator follows it. */
    method Enter(m: nat, dn: nat, path: string, vget: bool, reply: Reply, slash: bool, ghost c: seq<string>,
                 ghost x: string) returns (r: Outcome)
      requires Cached() && Agree(node, tree, held + [Key(m, c)], mount.Keys) && m in mount
      requires Names(c + [x]) && path == Join(c + [x]) && |path| < VFS_MAX_PATH && Key(m, c) in tree
        && tree[Key(m, c)] == dn
      modifies this`node, this`bucket, this`mount, this`next, this`key, this`tree, this`held
      ensures Cached() && SameMounts(old(mount), mount) && m in mount
      ensures r.Acquired? ==> Agree(node, tree, held + [Key(m, c + [x])], mount.Keys) && held == old(held)
      ensures r.Acquired? ==>
        && Key(m, c + [x]) in tree && tree[Key(m, c + [x])] == r.node
        && tree.Keys == old(tree).Keys + {Key(m, c + [x])}
      ensures !r.Acquired? ==> Agree(node, tree, held, mount.Keys) && !r.NoMount?
      ensures r.NoNode? <==> Key(m, c + [x]) !in old(tree) && !vget
      ensures r.LookupFailed? <==> Key(m, c + [x]) !in old(tree) && vget && reply.Error?
      ensures r.NotDirectory? <==> Key(m, c + [x]) !in old(tree) && vget && slash && reply == Found(false)
      ensures r.NoNode? ==> held == old(held) + if c == [] then [] else [Key(m, Front(c))]
      ensures r.LookupFailed? || r.NotDirectory? ==> held == old(held)
    {
      hide Cache, Agree, Bumped, Join, Rooted, SameMounts;
      ghost var k, mounts := Key(m, c + [x]), mount.Keys;
      SnocPath(c, x);
      HeldNode(node, key, tree, bucket, mount, held, Key(m, c));
      var l := Lookup(m, path, k);
      if l.Some? {
        AgreeDown(old(node), old(tree), node, tree, held, mounts, m, c, x);
        SameMountsSelf(mount);
        return Acquired(l.value);
      }
      var g := Get(m, path, vget, k);
      SameMountsKeys(old(mount), mount);
      if g.None? {
        ghost var was := mount;
        PutLast(m, dn, c);
        SameMountsTrans(old(mount), was, mount);
        return NoNode;
      }
      AgreeDown(old(node), old(tree), node, tree, held, mounts, m, c, x);
      if reply.Error? || (slash && !reply.dir) {
        held := held + [k];
        ghost var was := mount;
        Release(g.value, |held| - 1);
        SameMountsTrans(old(mount), was, mount);
        assert held == old(held);
        return if reply.Error? then LookupFailed else NotDirectory;
      }
      r := Acquired(g.value);
    }

    /** Giving back the node reached and no other: right for the root, but below it the path above stays held. */
    method PutLast(m: nat, dn: nat, ghost c: seq<string>)
      requires Cached() && Agree(node, tree, held + [Key(m, c)], mount.Keys) && m in mount && Key(m, c) in tree
        && tree[Key(m, c)] == dn
      modifies this`node, this`bucket, this`mount, this`key, this`tree, this`held
      ensures Cached() && SameMounts(old(mount), mount) && m in mount && Agree(node, tree, held, mount.Keys)
      ensures held == old(held) + if c == [] then [] else [Key(m, Front(c))]
    {
      hide Cache, Agree, Bumped, Rooted, SameMounts;
      HeldNode(node, key, tree, bucket, mount, held, Key(m, c));
      if c == [] {
        RootRefs(node, tree, mount, mnts, held, m);
        RootIs(tree, mount, mnts, m);
      }
      Put(dn);
      SameMountsKeys(old(mount), mount);
      if c == [] {
        AgreeRoot(old(node), old(tree), node, tree, held, mount.Keys, m);
      } else {
        AgreeUp(old(node), old(tree), node, tree, held, mount.Keys, m, c);
        held := held + [Key(m, Front(c))];
      }
    }

    /** `vfs_node_ref` of the root of a mount */
    method RefRoot(m: nat)
      requires Valid() && m in mount
      modifies this`node
      ensures Cached() && Agree(node, tree, held + [Key(m, [])], mount.Keys)
    {
      hide Cache, Agree, Bumped;
      RootKey(node, key, tree, bucket, mount, mnts, m);
      var n := mount[m].root;
      NodeCounted(node, key, tree, bucket, mount, n);
      CountAdjusted(node, key, tree, bucket, mount, n, 1);
      AgreeRoot(node, tree, node[n := node[n].(refs := node[n].refs + 1)], tree, held, mount.Keys, m);
      node := node[n := node[n].(refs := node[n].refs + 1)];
    }

    /**
     `vfs_node_acquire`: `vget` and `ask` are the answers of the file system, by path.  The state
     before the call and these answers decide the outcome, through `FateOf`.
     */
    method Acquire(path: string, vget: string -> bool, ask: string -> Reply)
      returns (r: Outcome, ghost m: nat, ghost cs: seq<string>)
      requires Valid() && |path| + 1 < VFS_MAX_PATH
      modifies this`node, this`bucket, this`mount, this`next, this`key, this`tree, this`held
      ensures Valid() && SameMounts(old(mount), mount)
      ensures r.NoMount? <==> forall i | 0 <= i < |mnts| ::
        mnts[i] in old(mount) && MatchLen(path, old(mount)[mnts[i]].path) == 0
      ensures r.NoMount? ==> held == old(held) && node == old(node)
      ensures !r.NoMount? ==>
        && m in old(mount) && IsServed(path, mnts, old(mount), m)
        && cs == CompsIn(path, old(mount)[m].path) && Comps(old(mount)[m].path) + cs == Comps(path)
      ensures !r.NoMount? ==> var f := FateOf(old(tree), m, cs, 0, Trailing(path), vget, ask);
        && (if f.Arrives? then r.Acquired? else r == f.why)
        && held == HeldAfter(old(held), m, cs, f)
        && (r.Acquired? ==> Key(m, cs) in tree && tree[Key(m, cs)] == r.node)
        && (!r.Acquired? ==> (held == old(held) <==> !Leaks(f)))
    {
      hide Cache, Agree, Comps, Join, SameMounts, MatchLen, IsServed, CompsIn, Serves, Rooted, FateOf, Trailing;
      var f, rest, at := FindRoot(path);
      SameMountsSelf(mount);
      m, cs := 0, [];
      if f.None? {
        r := NoMount;
        return;
      }
      ServedBy(path, tree, mnts, mount, f.value, at, rest);
      m, cs := f.value, Comps(rest);
      var n := mount[f.value].root;
      RootIs(tree, mount, mnts, m);
      RefRoot(f.value);
      FateTrailing(tree, m, path, rest, vget, ask);
      r := Walk(f.value, n, path, rest, vget, ask);
    }

    /** The loop of `vfs_node_acquire` over the rest of the path, from the root of the mount */
    method Walk(m: nat, root: nat, path: string, rest: string, vget: string -> bool,
                ask: string -> Reply) returns (r: Outcome)
      requires Cached() && m in mount && Key(m, []) in tree && tree[Key(m, [])] == root
      requires Agree(node, tree, held + [Key(m, [])], mount.Keys) && |rest| <= |path| && |path| + 1 < VFS_MAX_PATH
      modifies this`node, this`bucket, this`mount, this`next, this`key, this`tree, this`held
      ensures Valid() && SameMounts(old(mount), mount) && !r.NoMount?
      ensures var cs := Comps(rest); var f := FateOf(old(tree), m, cs, 0, Trailing(rest), vget, ask);
        && (if f.Arrives? then r.Acquired? else r == f.why && f.at < |cs|)
        && held == HeldAfter(old(held), m, cs, f)
        && (r.Acquired? ==> Key(m, cs) in tree && tree[Key(m, cs)] == r.node)
    {
      hide Cache, Agree, Comps, Join, Names, SameMounts, PathOf, Rooted, FateOf, Trailing;
      ghost var cs, slash := Comps(rest), Trailing(rest);
      ghost var c: seq<string> := [];
      WalkStart(rest);
      SameMountsSelf(mount);
      var n, p, buf := root, 0, "";
      while p < |rest|
        invariant p <= |rest| && c + Comps(rest[p..]) == cs && buf == Join(c) && m in mount && Cached()
          && held == old(held)
        invariant SameMounts(old(mount), mount) && Agree(node, tree, held + [Key(m, c)], mount.Keys)
        invariant Key(m, c) in tree && tree[Key(m, c)] == n && tree.Keys >= old(tree).Keys
        invariant forall k | k in tree && k !in old(tree) :: |k.comps| <= |c|
        invariant FateOf(old(tree), m, cs, |c|, slash, vget, ask) == FateOf(old(tree), m, cs, 0, slash, vget, ask)
        invariant |buf| + |rest| - p <= |path| + 1 && (p > 0 ==> p == |rest| || rest[p] == '/')
          && (p == 0 ==> buf == "")
        decreases |rest| - p
      {
        var start, end := NextName(rest, p);
        if start == end {
          break;
        }
        ghost var x := rest[start..end];
        StepFacts(c, x, Comps(rest[end..]), cs);
        Separated(rest, start, end);
        FateStep(old(tree), m, cs, |c|, slash, vget, ask);
        buf, p := buf + "/" + rest[start..end], end;
        ghost var was := mount;
        r := Enter(m, n, buf, vget(buf), ask(buf), p < |rest| && rest[p] == '/', c, x);
        SameMountsTrans(old(mount), was, mount);
        if !r.Acquired? {
          return;
        }
        n, c := r.node, c + [x];
      }
      CompsStep(rest[p..]);
      assert c == cs;
      FateEnd(old(tree), m, cs, slash, vget, ask);
      held := held + [Key(m, c)];
      r := Acquired(n);
    }
  }

  // ---------------------------------------------------------------- the fate of a walk

  ghost predicate Trailing(path: string) {
    path != "" && path[|path| - 1] == '/'
  }

  /** Why component `i` cannot be passed, if it cannot: a cached one always can. */
  ghost function Obstacle(tree: Tree, m: nat, cs: seq<string>, i: nat, slash: bool, vget: string -> bool,
                          ask: string -> Reply): Option<Outcome>
    requires i < |cs|
  {
    var p := cs[..i + 1];
    if Key(m, p) in tree then None
    else if !vget(Join(p)) then Some(NoNode)
    else if ask(Join(p)).Error? then Some(LookupFailed)
    else if (i + 1 < |cs| || slash) && ask(Join(p)) == Found(false) then Some(NotDirectory)
    else None
  }

  /**
   The first component from `i` on that cannot be passed, and why; `slash` is whether the path ends
   with a separator.
   */
  ghost function FateOf(tree: Tree, m: nat, cs: seq<string>, i: nat, slash: bool, vget: string -> bool,
                        ask: string -> Reply): Fate
    decreases |cs| - i
  {
    if i >= |cs| then Arrives
    else
      var o := Obstacle(tree, m, cs, i, slash, vget, ask);
      if o.Some? then Stops(i, o.value) else FateOf(tree, m, cs, i + 1, slash, vget, ask)
  }

  /** A node that cannot be created below the first component leaves the path above it held. */
  ghost predicate Leaks(f: Fate) {
    f.Stops? && f.why == NoNode && f.at >= 1
  }

  ghost function HeldAfter(held: seq<Key>, m: nat, cs: seq<string>, f: Fate): seq<Key> {
    if f.Arrives? then held + [Key(m, cs)]
    else if Leaks(f) && f.at <= |cs| then held + [Key(m, cs[..f.at - 1])]
    else held
  }

  /** The walk arrives if and only if no component is an obstacle, and otherwise stops at the first one. */
  lemma {:induction false} FateMeans(tree: Tree, m: nat, cs: seq<string>, i: nat, slash: bool, vget: string -> bool,
                                     ask: string -> Reply)
    requires i <= |cs|
    ensures var f := FateOf(tree, m, cs, i, slash, vget, ask);
      && (f.Arrives? <==> forall j | i <= j < |cs| :: Obstacle(tree, m, cs, j, slash, vget, ask) == None)
      && (f.Stops? ==> i <= f.at < |cs| && Obstacle(tree, m, cs, f.at, slash, vget, ask) == Some(f.why)
                       && forall j | i <= j < f.at :: Obstacle(tree, m, cs, j, slash, vget, ask) == None)
    decreases |cs| - i
  {
    hide Obstacle;
    if i < |cs| && Obstacle(tree, m, cs, i, slash, vget, ask) == None {
      FateMeans(tree, m, cs, i + 1, slash, vget, ask);
    }
  }

  /** On arrival every directory on the way that had to be looked up is one. */
  lemma {:induction false} ArrivedThrough(tree: Tree, m: nat, cs: seq<string>, slash: bool, vget: string -> bool,
                                          ask: string -> Reply, j: nat)
    requires FateOf(tree, m, cs, 0, slash, vget, ask) == Arrives && j < |cs| && Key(m, cs[..j + 1]) !in tree
    ensures vget(Join(cs[..j + 1])) && ask(Join(cs[..j + 1])).Found?
      && (j + 1 < |cs| || slash ==> ask(Join(cs[..j + 1])).dir)
  {
    hide FateOf, Join;
    FateMeans(tree, m, cs, 0, slash, vget, ask);
    assert Obstacle(tree, m, cs, j, slash, vget, ask) == None;
  }

  /**
   Acquiring "/a/b" with no room for a second node leaves the root held; a plain file on the way is
   reported as success.
   */
  lemma {:induction false} WalksThatFail(tree: Tree, m: nat)
    requires Key(m, ["a"]) !in tree && Key(m, ["a", "b"]) !in tree
    ensures FateOf(tree, m, ["a", "b"], 0, false, p => p == "/a", p => Found(true)) == Stops(1, NoNode)
    ensures HeldAfter([], m, ["a", "b"], Stops(1, NoNode)) == [Key(m, [])]
    ensures FateOf(tree, m, ["a", "b"], 0, false, p => true, p => Found(false)) == Stops(0, NotDirectory)
      && ReportsSuccess(NotDirectory)
  {
    hide Join, FateOf;
    var cs := ["a", "b"];
    assert cs[..1] == ["a"] && cs[..2] == cs && cs[..0] == [];
    TwoPaths();
    FateStep(tree, m, cs, 0, false, p => p == "/a", p => Found(true));
    FateStep(tree, m, cs, 1, false, p => p == "/a", p => Found(true));
    FateStep(tree, m, cs, 0, false, p => true, p => Found(false));
  }

  lemma {:induction false} TwoPaths()
    ensures Join(["a"]) == "/a" && Join(["a", "b"]) != "/a"
  {
    JoinSnoc([], "a");
    assert [] + ["a"] == ["a"];
    JoinSnoc(["a"], "b");
    assert ["a"] + ["b"] == ["a", "b"];
    assert |Join(["a", "b"])| == 4;
  }

  lemma {:induction false} FateStep(tree: Tree, m: nat, cs: seq<string>, i: nat, slash: bool, vget: string -> bool,
                                    ask: string -> Reply)
    requires i < |cs|
    ensures FateOf(tree, m, cs, i, slash, vget, ask) ==
      var o := Obstacle(tree, m, cs, i, slash, vget, ask);
      if o.Some? then Stops(i, o.value) else FateOf(tree, m, cs, i + 1, slash, vget, ask)
  {
    hide Obstacle;
  }

  lemma {:induction false} FateEnd(tree: Tree, m: nat, cs: seq<string>, slash: bool, vget: string -> bool,
                                   ask: string -> Reply)
    ensures FateOf(tree, m, cs, |cs|, slash, vget, ask) == Arrives
  {
  }

  /** The end of the path is the end of what follows the mount point, unless nothing does. */
  lemma {:induction false} FateTrailing(tree: Tree, m: nat, path: string, rest: string, vget: string -> bool,
                                        ask: string -> Reply)
    requires |rest| <= |path| && rest == path[|path| - |rest|..]
    ensures FateOf(tree, m, Comps(rest), 0, Trailing(path), vget, ask)
      == FateOf(tree, m, Comps(rest), 0, Trailing(rest), vget, ask)
  {
    hide Comps;
    if rest == "" {
      CompsStep(rest);
    }
  }

  /** A separator follows a component if and only if another component does or the path ends with one. */
  lemma {:induction false} Separated(rest: string, start: nat, end: nat)
    requires start < end <= |rest| && IsName(rest[start..end]) && (end < |rest| ==> rest[end] == '/')
    ensures end < |rest| <==> Comps(rest[end..]) != [] || Trailing(rest)
  {
    hide Comps;
    CompsStep(rest[end..]);
    if end == |rest| {
      assert rest[|rest| - 1] == rest[start..end][end - start - 1];
    } else if Comps(rest[end..]) == [] {
      OnlySlashes(rest[end..]);
      assert rest[|rest| - 1] == rest[end..][|rest| - end - 1];
    }
  }

  lemma {:induction false} OnlySlashes(s: string)
    requires Comps(s) == []
    ensures forall i | 0 <= i < |s| :: s[i] == '/'
  {
    if s != "" {
      CompsStep(s);
      assert s[0] == '/';
      OnlySlashes(s[1..]);
      forall i | 0 <= i < |s| ensures s[i] == '/' {
        if i > 0 { assert s[i] == s[1..][i - 1]; }
      }
    }
  }

  lemma {:induction false} WalkStart(rest: string)
    ensures Names(Comps(rest)) && rest[0..] == rest && [] + Comps(rest) == Comps(rest) && Join([]) == ""
  {
    CompsAreNames(rest);
  }

  /** At most one mount serves a path. */
  lemma {:induction false} ServedOnce(path: string, mnts: seq<nat>, mount: Mounts, a: nat, b: nat)
    requires IsServed(path, mnts, mount, a) && IsServed(path, mnts, mount, b)
    ensures a == b
  {
    hide MatchLen;
    var i: nat :| Serves(path, mnts, mount, a, i);
    var j: nat :| Serves(path, mnts, mount, b, j);
    assert mnts[i] in mount && mnts[j] in mount;
  }

  lemma {:induction false} ServedBy(path: string, tree: Tree, mnts: seq<nat>, mount: Mounts, m: nat, at: nat,
                                    rest: string)
    requires Rooted(tree, mount, mnts) && m in mount && Serves(path, mnts, mount, m, at)
    requires MatchLen(path, mount[m].path) <= |path| && Comps(rest) == Comps(path[MatchLen(path, mount[m].path)..])
    ensures IsServed(path, mnts, mount, m) && Comps(rest) == CompsIn(path, mount[m].path)
    ensures Comps(mount[m].path) + Comps(rest) == Comps(path)
  {
    hide MatchLen, Comps;
    MatchSplits(path, mount[m].path);
  }

  ghost predicate IsServed(path: string, mnts: seq<nat>, mount: Mounts, m: nat) {
    && (forall j | 0 <= j < |mnts| :: mnts[j] in mount)
    && exists i :: Serves(path, mnts, mount, m, i)
  }

  lemma {:induction false} StepFacts(c: seq<string>, x: string, d: seq<string>, cs: seq<string>)
    requires c + ([x] + d) == cs && Names(cs)
    ensures (c + [x]) + d == cs && cs[..|c| + 1] == c + [x] && Names(c + [x]) && Join(c + [x]) == Join(c) + "/" + x
      && |c| < |cs|
    ensures c != [] ==> cs[..|c| - 1] == Front(c)
  {
    hide Join, IsName;
    JoinSnoc(c, x);
    assert cs[..|c| + 1] == c + [x];
    forall i | 0 <= i < |c + [x]| ensures IsName((c + [x])[i]) {
      assert (c + [x])[i] == cs[i];
    }
  }

  lemma {:induction false} RootIs(tree: Tree, mount: Mounts, mnts: seq<nat>, m: nat)
    requires Rooted(tree, mount, mnts) && m in mount
    ensures Key(m, []) in tree && tree[Key(m, [])] == mount[m].root
  {
  }

  lemma {:induction false} SnocPath(c: seq<string>, x: string)
    ensures PathOf(c + [x]) == Join(c + [x])
  {
  }

  lemma {:induction false} SameMountsSelf(a: Mounts)
    ensures SameMounts(a, a)
  {
  }

  lemma {:induction false} SameMountsTrans(a: Mounts, b: Mounts, c: Mounts)
    requires SameMounts(a, b) && SameMounts(b, c)
    ensures SameMounts(a, c) && a.Keys == c.Keys
  {
  }

  lemma {:induction false} SameMountsKeys(a: Mounts, b: Mounts)
    requires SameMounts(a, b)
    ensures a.Keys == b.Keys
  {
  }

  lemma {:induction false} EmptyJoin(c: seq<string>)
    ensures Join(c) == "" <==> c == []
  {
  }

  lemma {:induction false} BumpedBack(node: Nodes, tree: Tree, node1: Nodes, tree1: Tree, node2: Nodes, tree2: Tree,
                                      k: Key)
    requires Bumped(node, tree, node1, tree1, k, 1) && Bumped(node1, tree1, node2, tree2, k, -1)
    ensures Bumped(node, tree, node2, tree2, k, 0)
  {
    hide RefsOf;
  }

  lemma {:induction false} BumpedSame(node2: Nodes, tree2: Tree, node3: Nodes, tree3: Tree, node: Nodes, k: Key)
    requires Bumped(node, tree2, node2, tree2, k, 0) && Bumped(node2, tree2, node3, tree3, k, -1)
    ensures Bumped(node, tree2, node3, tree3, k, -1)
  {
    hide RefsOf;
  }

  /** The last acquisition in the list keeps its node cached. */
  lemma {:induction false} HeldNode(node: Nodes, key: Keys, tree: Tree, bucket: seq<seq<nat>>, mount: Mounts,
                                    rest: seq<Key>, k: Key)
    requires Cache(node, key, tree, bucket, mount) && Agree(node, tree, rest + [k], mount.Keys)
    ensures k in tree && tree[k] in node && tree[k] in key && key[tree[k]] == k && node[tree[k]].refs > 0
  {
    hide Total, RefsOf, Agree, Indexed, Counted;
    assert Passes(k, k);
    HeldIsCached(node, tree, rest, mount.Keys, k, k);
    KeyOf(node, key, tree, k);
  }

  /** Only the root of a mount is cached without components. */
  lemma {:induction false} RootNode(node: Nodes, key: Keys, tree: Tree, bucket: seq<seq<nat>>, mount: Mounts,
                                    mnts: seq<nat>, n: nat)
    requires Cache(node, key, tree, bucket, mount) && Rooted(tree, mount, mnts) && n in node && n in key
    ensures node[n].mount in mount && key[n] == Key(node[n].mount, key[n].comps)
    ensures mount[node[n].mount].root == n <==> key[n].comps == []
    ensures Names(key[n].comps) && (key[n].comps != [] ==> node[n].path == Join(key[n].comps))
      && |node[n].path| < VFS_MAX_PATH
  {
    hide Indexed;
    var m := node[n].mount;
    assert Key(m, []) in tree && tree[Key(m, [])] == mount[m].root;
  }

  lemma {:induction false} RootKey(node: Nodes, key: Keys, tree: Tree, bucket: seq<seq<nat>>, mount: Mounts,
                                   mnts: seq<nat>, m: nat)
    requires Cache(node, key, tree, bucket, mount) && Rooted(tree, mount, mnts) && m in mount
    ensures mount[m].root in node && mount[m].root in key && key[mount[m].root] == Key(m, [])
  {
    hide Indexed, Counted;
    assert Key(m, []) in tree;
  }

  /** While somebody holds a node of a mount, its root has a reference besides that of the mount. */
  lemma {:induction false} RootRefs(node: Nodes, tree: Tree, mount: Mounts, mnts: seq<nat>, rest: seq<Key>, m: nat)
    requires Rooted(tree, mount, mnts) && m in mount && Agree(node, tree, rest + [Key(m, [])], mount.Keys)
    ensures mount[m].root in node && node[mount[m].root].refs > 1
  {
    var k := Key(m, []);
    HoldRoot(rest, mount.Keys, m, k);
    assert RefsOf(node, tree, k) == Total(rest + [k], mount.Keys, k);
  }

  lemma {:induction false} NodeCounted(node: Nodes, key: Keys, tree: Tree, bucket: seq<seq<nat>>, mount: Mounts, n: nat)
    requires Cache(node, key, tree, bucket, mount) && n in node && n in key
    ensures node[n].refs > 0 && |bucket| == VFS_NODE_HASH_SIZE && node[n].mount in mount
      && key[n].mount == node[n].mount
  {
  }

  lemma {:induction false} BucketMember(node: Nodes, bucket: seq<seq<nat>>, h: nat, i: nat)
    requires Indexed(node, bucket) && h < |bucket| && i < |bucket[h]|
    ensures bucket[h][i] in node
  {
    hide Hash, NoDup;
    assert BucketOk(node, bucket[h], h);
  }

  lemma {:induction false} KeyOf(node: Nodes, key: Keys, tree: Tree, k: Key)
    requires Keyed(node, key, tree) && k in tree
    ensures tree[k] in node && tree[k] in key && key[tree[k]] == k && node[tree[k]].refs > 0
  {
  }

  lemma {:induction false} NewMount(node: Nodes, key: Keys, tree: Tree, bucket: seq<seq<nat>>, mount: Mounts,
                                    held: seq<Key>, m: nat, dir: string)
    requires Cache(node, key, tree, bucket, mount) && m !in mount
    ensures Cache(node, key, tree, bucket, mount[m := Mount(dir, 0, 0)]) && Key(m, []) !in tree && Names([])
      && PathOf([]) == "/"
  {
    hide Indexed, NodeOk;
    assert OfMount(node, m) == {};
    if Key(m, []) in tree {
      var id := tree[Key(m, [])];
      assert id in node && NodeOk(node[id], Key(m, []));
      MountOf(node[id], Key(m, []));
    }
  }

  lemma {:induction false} MountAdded(node: Nodes, key: Keys, tree: Tree, bucket: seq<seq<nat>>, mount: Mounts,
                                      held: seq<Key>, m: nat, dir: string, n: nat)
    requires Cache(node, key, tree, bucket, mount) && m !in mount && n !in node && Agree(node, tree, held, mount.Keys)
    ensures Key(m, []) !in tree && Hash(m, "/") < |bucket|
    ensures Cache(node[n := Node(m, "/", 1)], key[n := Key(m, [])], tree[Key(m, []) := n],
      bucket[Hash(m, "/") := [n] + bucket[Hash(m, "/")]], mount[m := Mount(dir, n, 1)])
    ensures Agree(node[n := Node(m, "/", 1)], tree[Key(m, []) := n], held, mount.Keys + {m})
  {
    hide Cache, Agree, Bumped, Hash, PathOf;
    NewMount(node, key, tree, bucket, mount, held, m, dir);
    var mount0 := mount[m := Mount(dir, 0, 0)];
    NodeAdded(node, key, tree, bucket, mount0, Key(m, []), n);
    assert mount0[m := mount0[m].(refs := 1)] == mount[m := Mount(dir, 0, 1)];
    RootPlaced(node, key[n := Key(m, [])], tree, mount, node[n := Node(m, "/", 1)],
      bucket[Hash(m, "/") := [n] + bucket[Hash(m, "/")]], held, m, dir, n);
  }

  lemma {:induction false} RootedAdded(tree: Tree, mount: Mounts, mnts: seq<nat>, m: nat, r: Mount)
    requires Rooted(tree, mount, mnts) && m !in mount
    ensures Rooted(tree[Key(m, []) := r.root], mount[m := r], [m] + mnts) && (mount[m := r]).Keys == mount.Keys + {m}
  {
  }

  lemma {:induction false} MountOf(n: Node, k: Key)
    requires NodeOk(n, k)
    ensures n.mount == k.mount
  {
  }

  lemma {:induction false} RootPlaced(node: Nodes, key': Keys, tree: Tree, mount: Mounts, node': Nodes,
                                      bucket': seq<seq<nat>>, held: seq<Key>, m: nat, dir: string, n: nat)
    requires m !in mount && Key(m, []) !in tree && Agree(node, tree, held, mount.Keys)
    requires Cache(node', key', tree[Key(m, []) := n], bucket', mount[m := Mount(dir, 0, 1)])
      && Bumped(node, tree, node', tree[Key(m, []) := n], Key(m, []), 1)
    ensures Cache(node', key', tree[Key(m, []) := n], bucket', mount[m := Mount(dir, n, 1)])
    ensures Agree(node', tree[Key(m, []) := n], held, mount.Keys + {m})
  {
    hide Indexed, Keyed, RefsOf, Through, OfMount;
  }

  // ---------------------------------------------------------------- what the counts mean

  /** A place is cached exactly when an acquisition passes through it or it is the root of a mount. */
  lemma {:induction false} CachedWhen(node: Nodes, key: Keys, tree: Tree, bucket: seq<seq<nat>>, mount: Mounts,
                                      held: seq<Key>, k: Key)
    requires Cache(node, key, tree, bucket, mount) && Agree(node, tree, held, mount.Keys)
    ensures k in tree <==> Total(held, mount.Keys, k) > 0
    ensures k in tree ==> tree[k] in node && node[tree[k]].refs == Total(held, mount.Keys, k)
  {
    hide Total, Indexed, Counted;
    if k in tree {
      KeyOf(node, key, tree, k);
    }
    assert RefsOf(node, tree, k) == Total(held, mount.Keys, k);
  }

  lemma {:induction false} ThroughPrefix(held: seq<Key>, k: Key, p: seq<string>)
    requires p <= k.comps
    ensures Through(held, Key(k.mount, p)) >= Through(held, k)
  {
    if held != [] {
      ThroughPrefix(held[1..], k, p);
      assert Passes(held[0], k) ==> Passes(held[0], Key(k.mount, p));
    }
  }

  /** The cache is closed under prefixes: with a node, every directory above it is cached. */
  lemma {:induction false} PrefixClosed(node: Nodes, key: Keys, tree: Tree, bucket: seq<seq<nat>>, mount: Mounts,
                                        held: seq<Key>, k: Key, p: seq<string>)
    requires Cache(node, key, tree, bucket, mount) && Agree(node, tree, held, mount.Keys) && k in tree && p <= k.comps
    ensures Key(k.mount, p) in tree
  {
    hide Cache, Agree, Through;
    CachedWhen(node, key, tree, bucket, mount, held, k);
    CachedWhen(node, key, tree, bucket, mount, held, Key(k.mount, p));
    ThroughPrefix(held, k, p);
  }

  /** No two nodes of a mount have the same path. */
  lemma {:induction false} UniquePaths(node: Nodes, key: Keys, tree: Tree, bucket: seq<seq<nat>>, mount: Mounts,
                                       a: nat, b: nat)
    requires Cache(node, key, tree, bucket, mount) && a in node && b in node && node[a].mount == node[b].mount
      && node[a].path == node[b].path
    ensures a == b
  {
    hide Indexed, Counted;
    MatchIsPlace(node, key, tree, key[a], b);
  }

  /** When everything has been released, only the roots of the mounts are left, each with one reference. */
  lemma {:induction false} AllReleased(node: Nodes, key: Keys, tree: Tree, bucket: seq<seq<nat>>, mount: Mounts,
                                       mnts: seq<nat>, id: nat)
    requires Cache(node, key, tree, bucket, mount) && Rooted(tree, mount, mnts) && Agree(node, tree, [], mount.Keys)
    ensures id in node <==> exists m | m in mount :: mount[m].root == id
    ensures id in node ==> node[id].refs == 1
  {
    hide Indexed, Counted;
    if id in node {
      var k := key[id];
      CachedWhen(node, key, tree, bucket, mount, [], k);
      assert k.comps == [] && mount[k.mount].root == id;
    }
    forall m | m in mount ensures mount[m].root in node {
      assert Key(m, []) in tree;
    }
  }

  /** The test of `vfs_unmount`: the mount counts one node exactly when nobody holds a node below its root. */
  lemma {:induction false} IdleMount(node: Nodes, key: Keys, tree: Tree, bucket: seq<seq<nat>>, mount: Mounts,
                                     mnts: seq<nat>, held: seq<Key>, m: nat)
    requires Cache(node, key, tree, bucket, mount) && Rooted(tree, mount, mnts) && Agree(node, tree, held, mount.Keys)
      && m in mount
    ensures mount[m].refs <= 1 <==> forall i | 0 <= i < |held| && held[i].mount == m :: held[i].comps == []
  {
    hide Total, Agree, Indexed, RefsOf;
    var root := mount[m].root;
    RootKey(node, key, tree, bucket, mount, mnts, m);
    RootIs(tree, mount, mnts, m);
    NodeCounted(node, key, tree, bucket, mount, root);
    assert root in OfMount(node, m);
    if i :| 0 <= i < |held| && held[i].mount == m && held[i].comps != [] {
      AgreeMoved(node, tree, held, mount.Keys, i);
      HeldNode(node, key, tree, bucket, mount, held[..i] + held[i + 1..], held[i]);
      var id := tree[held[i]];
      NodeCounted(node, key, tree, bucket, mount, id);
      assert {root, id} <= OfMount(node, m);
      SubsetSize({root, id}, OfMount(node, m));
    } else {
      forall id | id in OfMount(node, m) ensures id == root {
        OnlyRoot(node, key, tree, bucket, mount, held, m, id);
      }
      assert OfMount(node, m) == {root};
    }
  }

  lemma {:induction false} OnlyRoot(node: Nodes, key: Keys, tree: Tree, bucket: seq<seq<nat>>, mount: Mounts,
                                    held: seq<Key>, m: nat, id: nat)
    requires Cache(node, key, tree, bucket, mount) && Agree(node, tree, held, mount.Keys) && id in node
      && node[id].mount == m
    requires forall i | 0 <= i < |held| && held[i].mount == m :: held[i].comps == []
    ensures Key(m, []) in tree && tree[Key(m, [])] == id
  {
    hide Agree, Indexed, Counted, Through;
    var k := key[id];
    CachedWhen(node, key, tree, bucket, mount, held, k);
    if k.comps != [] {
      NoneThrough(held, k);
      assert false;
    }
  }

  lemma {:induction false} NoneThrough(held: seq<Key>, k: Key)
    requires k.comps != [] && forall i | 0 <= i < |held| && held[i].mount == k.mount :: held[i].comps == []
    ensures Through(held, k) == 0
  {
    if held != [] {
      assert held[0].mount == k.mount ==> held[0].comps == [];
      NoneThrough(held[1..], k);
    }
  }
}
