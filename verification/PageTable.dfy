/**
 The Sv39 page tables of arch/vm.c (section 4.4 of the RISC-V Privileged Architecture): a tree of
 three levels of tables of 512 entries, walked, extended and filled by the kernel.

 A table is known by its physical page number; an address is split into its virtual page number and
 an offset, which plays no part.  `where` records the level of each table and the leading part of
 the virtual page numbers it serves.
 */
module PageTable {
  import opened Wrappers

  const ENTRIES: nat := 512
  /** `MAXVA / PGSIZE` */
  const MAXVPN: nat := 0x400_0000

  const PTE_U: nat := 16

  type Memory = map<nat, seq<nat>>

  /** `PTE_V` is bit 0, `PTE_U` bit 4; the page number starts at bit 10. */
  function IsValid(pte: nat): bool {
    pte % 2 == 1
  }

  function IsUser(pte: nat): bool {
    pte / PTE_U % 2 == 1
  }

  function Ppn(pte: nat): nat {
    pte / 1024
  }

  function Flags(pte: nat): nat {
    pte % 1024
  }

  /** `PA2PTE(pa) | perm | PTE_V` */
  function MakePte(ppn: nat, perm: nat): nat
    requires perm < 1024
  {
    ppn * 1024 + (if perm % 2 == 1 then perm else perm + 1)
  }

  /** The entry leads to the page with the permissions asked for. */
  lemma {:induction false} MakePteReads(ppn: nat, perm: nat)
    requires perm < 1024
    ensures var pte := MakePte(ppn, perm); pte % 2 == 1 && pte / 1024 == ppn && pte % 1024 / 2 == perm / 2
    ensures IsValid(MakePte(ppn, perm)) && Ppn(MakePte(ppn, perm)) == ppn
    ensures Rwx(MakePte(ppn, perm)) == Rwx(perm) && (LegalLeaf(MakePte(ppn, perm)) <==> LegalLeaf(perm))
    ensures Flags(MakePte(ppn, perm)) / 2 == perm / 2 && (IsUser(MakePte(ppn, perm)) <==> perm / PTE_U % 2 == 1)
  {
    var low := if perm % 2 == 1 then perm else perm + 1;
    EntrySplit(ppn, low);
    RwxBits(ppn, low);
    UserBit(ppn, low);
    UserBit(0, low);
    assert low / 2 == perm / 2;
    assert low / 2 / 8 == low / PTE_U && perm / 2 / 8 == perm / PTE_U;
  }

  lemma {:induction false} EntrySplit(ppn: nat, low: nat)
    requires low < 1024
    ensures (ppn * 1024 + low) / 1024 == ppn && (ppn * 1024 + low) % 1024 == low && (ppn * 1024 + low) % 2 == low % 2
  {
  }

  lemma {:induction false} RwxBits(ppn: nat, low: nat)
    requires low < 1024
    ensures (ppn * 1024 + low) / 2 % 8 == low / 2 % 8
  {
    var h, r := low / 2, low % 2;
    assert ppn * 1024 + low == (ppn * 512 + h) * 2 + r;
    Halved(ppn * 512 + h, r);
    Eighths(ppn * 64, h);
  }

  lemma {:induction false} Halved(q: nat, r: nat)
    requires r < 2
    ensures (q * 2 + r) / 2 == q
  {
  }

  lemma {:induction false} Eighths(q: nat, h: nat)
    ensures (q * 8 + h) % 8 == h % 8
  {
  }

  lemma {:induction false} Halves(q: nat, h: nat)
    ensures (q * 2 + h) % 2 == h % 2
  {
  }

  lemma {:induction false} UserBit(ppn: nat, low: nat)
    requires low < 1024
    ensures (ppn * 1024 + low) / PTE_U % 2 == low / PTE_U % 2
  {
    var h, r := low / 16, low % 16;
    assert ppn * 1024 + low == (ppn * 64 + h) * 16 + r;
    Quotient(ppn * 64 + h, r);
    Halves(ppn * 32, h);
  }

  lemma {:induction false} Quotient(q: nat, r: nat)
    requires r < 16
    ensures (q * 16 + r) / 16 == q
  {
  }

  /** `PX(level, va)`: nine bits of the page number for each level. */
  function Index(vpn: nat, level: nat): (i: nat)
    ensures i < ENTRIES
  {
    if level == 0 then vpn % 512 else Prefix(vpn, level - 1) % 512
  }

  /** The leading part of a page number that is fixed in a table of the given level. */
  function Prefix(vpn: nat, level: nat): nat {
    if level == 0 then vpn / 512 else Prefix(vpn, level - 1) / 512
  }

  /** The combinations of permissions that the hardware takes for a leaf: R, RW, X, RX and RWX */
  lemma {:induction false} LegalLeaves(pte: nat)
    ensures LegalLeaf(pte) <==> pte / 2 % 8 in {1, 3, 4, 5, 7}
  {
  }

  /** How many pages an entry of the given level serves. */
  function Span(level: nat): (n: nat)
    ensures n > 0
  {
    if level == 0 then 1 else 512 * Span(level - 1)
  }

  /** The kernel takes its nine bits for each level from where the hardware does. */
  lemma {:induction false} IndexIs(vpn: nat, level: nat)
    ensures Index(vpn, level) == vpn / Span(level) % 512 && Prefix(vpn, level) == vpn / Span(level + 1)
  {
    if level > 0 {
      IndexIs(vpn, level - 1);
      DivDiv(vpn, Span(level));
    }
  }

  lemma {:induction false} IndexBits(vpn: nat)
    ensures Index(vpn, 0) == vpn % 512 && Index(vpn, 1) == vpn / 512 % 512 && Index(vpn, 2) == vpn / 262144 % 512
  {
    hide Index, Prefix;
    IndexIs(vpn, 0);
    IndexIs(vpn, 1);
    IndexIs(vpn, 2);
    assert Span(1) == 512 && Span(2) == 262144;
  }

  lemma {:induction false} DivDiv(a: nat, b: nat)
    requires b > 0
    ensures a / b / 512 == a / (512 * b)
  {
    var q, r := a / b, a % b;
    var p, t := q / 512, q % 512;
    Divided(a, b);
    Regroup(b, q, p, t);
    Room(b, t, r);
    QuotientIs(a, 512 * b, p, b * t + r);
  }

  lemma {:induction false} Divided(a: nat, b: nat)
    requires b > 0
    ensures a == b * (a / b) + a % b && 0 <= a % b < b
  {
  }

  lemma {:induction false} Regroup(b: nat, q: nat, p: nat, t: nat)
    requires q == 512 * p + t
    ensures b * q == (512 * b) * p + b * t
  {
    assert b * (512 * p) == (512 * b) * p;
    assert b * q == b * (512 * p) + b * t;
  }

  lemma {:induction false} Room(b: nat, t: nat, r: nat)
    requires t < 512 && r < b
    ensures b * t + r < 512 * b
  {
    OneMore(b, t, 512);
  }

  lemma {:induction false} QuotientIs(a: nat, m: nat, q: nat, r: nat)
    requires a == m * q + r && r < m
    ensures a / m == q
  {
    var p, s := a / m, a % m;
    assert m * p + s == m * q + r;
    if p > q { OneMore(m, q, p); } else if p < q { OneMore(m, p, q); }
  }

  lemma {:induction false} OneMore(m: nat, p: nat, q: nat)
    requires p < q
    ensures m * p + m <= m * q
  {
    assert m * (p + 1) == m * p + m;
    assert m * (p + 1) <= m * q;
  }

  lemma {:induction false} PrefixStep(vpn: nat, level: nat)
    requires 0 < level
    ensures Prefix(vpn, level - 1) == Prefix(vpn, level) * 512 + Index(vpn, level)
  {
  }

  lemma {:induction false} SameIndex(v: nat, w: nat)
    requires Prefix(v, 0) == Prefix(w, 0) && Index(v, 0) == Index(w, 0)
    ensures v == w
  {
  }

  /** What following the valid bits finds for a page from a table of the given level on, as the kernel does. */
  ghost function Lookup(mem: Memory, page: nat, level: nat, vpn: nat): Option<nat>
    decreases level
  {
    if page !in mem || |mem[page]| != ENTRIES then None
    else
      var pte := mem[page][Index(vpn, level)];
      if !IsValid(pte) then None
      else if level == 0 then Some(pte)
      else Lookup(mem, Ppn(pte), level - 1, vpn)
  }

  /** Bits 1 to 3, which permit reading, writing and executing; an entry with none of them points to a table. */
  function Rwx(pte: nat): nat {
    pte / 2 % 8
  }

  /** A leaf can be read or executed, and what can be written can be read. */
  predicate LegalLeaf(pte: nat) {
    var b := Rwx(pte);
    (b % 2 == 1 || b / 4 == 1) && (b / 2 % 2 == 1 ==> b % 2 == 1)
  }

  /**
   What the hardware finds (section 4.4.1 together with 4.3.2 of the RISC-V Privileged Architecture): the
   entry that maps the page, of whatever size, or none where it faults.
   */
  ghost function Translate(mem: Memory, page: nat, level: nat, vpn: nat): Option<nat>
    decreases level
  {
    if page !in mem || |mem[page]| != ENTRIES then None
    else
      var pte := mem[page][vpn / Span(level) % 512];
      if !IsValid(pte) then None
      else if LegalLeaf(pte) then
        (if Ppn(pte) % Span(level) == 0 then Some(pte + vpn % Span(level) * 1024) else None)
      else if Rwx(pte) != 0 || level == 0 then None
      else Translate(mem, Ppn(pte), level - 1, vpn)
  }

  /** A kernel entry as the hardware sees it */
  ghost function Legal(e: Option<nat>): Option<nat> {
    if e.Some? && LegalLeaf(e.value) then e else None
  }

  /** The level of a table and the prefix it serves. */
  datatype Place = Place(level: nat, prefix: nat)

  type Where = map<nat, Place>

  /** The tables form a tree: each is reached along the one path that `where` gives for it. */
  ghost predicate IsTree(mem: Memory, where: Where, root: nat) {
    && root in where && where[root] == Place(2, 0)
    && Located(mem, where) && Children(mem, where) && Parents(mem, where, root)
  }

  ghost predicate Located(mem: Memory, where: Where) {
    && (forall p | p in where :: p in mem && |mem[p]| == ENTRIES && where[p].level <= 2)
    && (forall p, q | p in where && q in where && where[p] == where[q] :: p == q)
  }

  ghost predicate Children(mem: Memory, where: Where) {
    forall p, i | p in where && where[p].level > 0 && p in mem && 0 <= i < |mem[p]|
      && IsValid(mem[p][i]) :: ChildOk(mem, where, p, i)
  }

  ghost predicate Parents(mem: Memory, where: Where, root: nat) {
    forall q | q in where && q != root :: HasParent(mem, where, q)
  }

  ghost predicate HasParent(mem: Memory, where: Where, q: nat)
    requires q in where
  {
    exists p | p in where :: IsParent(mem, where, p, q)
  }

  /** The entry of `p` for the prefix of `q` leads to `q`. */
  ghost predicate IsParent(mem: Memory, where: Where, p: nat, q: nat)
    requires p in where && q in where
  {
    && where[p] == Place(where[q].level + 1, where[q].prefix / 512)
    && p in mem && |mem[p]| == ENTRIES
    && (var e := mem[p][where[q].prefix % 512]; IsValid(e) && Ppn(e) == q)
  }

  ghost predicate ChildOk(mem: Memory, where: Where, p: nat, i: nat)
    requires p in where && p in mem && i < |mem[p]|
  {
    where[p].level > 0 && Rwx(mem[p][i]) == 0 && Ppn(mem[p][i]) in where
      && where[Ppn(mem[p][i])] == Place(where[p].level - 1, where[p].prefix * 512 + i)
  }

  /** A table on the path of a page. */
  ghost predicate OnPath(where: Where, page: nat, level: nat, vpn: nat) {
    page in where && where[page] == Place(level, Prefix(vpn, level))
  }

  /** All pages translate alike in two memories. */
  ghost predicate SameMap(m: Memory, k: Memory, root: nat) {
    forall v | 0 <= v < MAXVPN :: Lookup(m, root, 2, v) == Lookup(k, root, 2, v)
  }

  /** The walk for a page leads from table `page` of the given level to the last-level table `p`. */
  ghost predicate Reaches(mem: Memory, page: nat, level: nat, vpn: nat, p: nat, low: nat)
    decreases level
  {
    if level <= low then page == p && level == low
    else
      && page in mem && |mem[page]| == ENTRIES
      && IsValid(mem[page][Index(vpn, level)])
         && Reaches(mem, Ppn(mem[page][Index(vpn, level)]), level - 1, vpn, p, low)
  }

  /** The same for the hardware */
  ghost predicate SameTranslation(m: Memory, k: Memory, root: nat) {
    forall v | 0 <= v < MAXVPN :: Translate(m, root, 2, v) == Translate(k, root, 2, v)
  }

  /** In the kernel's tables the hardware finds the kernel's entry if it is a legal leaf, and faults otherwise. */
  lemma {:induction false} TranslateIs(mem: Memory, where: Where, root: nat, page: nat, level: nat, v: nat)
    requires IsTree(mem, where, root) && OnPath(where, page, level, v) && level <= 2
    ensures Translate(mem, page, level, v) == Legal(Lookup(mem, page, level, v))
    decreases level
  {
    hide IsTree, IsValid, Ppn, OnPath, Index, Prefix, Rwx, LegalLeaf;
    ChildOnPath(mem, where, root, page, level, v);
    PointerOrLeaf(mem, where, root, page, level, v);
    IndexIs(v, level);
    if level > 0 && IsValid(mem[page][Index(v, level)]) {
      TranslateIs(mem, where, root, Ppn(mem[page][Index(v, level)]), level - 1, v);
    }
  }

  lemma {:induction false} PointerOrLeaf(mem: Memory, where: Where, root: nat, page: nat, level: nat, v: nat)
    requires IsTree(mem, where, root) && OnPath(where, page, level, v) && level <= 2
    ensures page in mem && |mem[page]| == ENTRIES
    ensures level > 0 && IsValid(mem[page][Index(v, level)]) ==>
      Rwx(mem[page][Index(v, level)]) == 0 && !LegalLeaf(mem[page][Index(v, level)])
    ensures v % 1 == 0 && Ppn(mem[page][Index(v, level)]) % 1 == 0
  {
    hide Parents, IsValid, Index, Prefix;
    if level > 0 && IsValid(mem[page][Index(v, level)]) {
      assert ChildOk(mem, where, page, Index(v, level));
    }
  }

  lemma {:induction false} Translates(mem: Memory, where: Where, root: nat, v: nat)
    requires IsTree(mem, where, root) && v < MAXVPN
    ensures Translate(mem, root, 2, v) == Legal(Lookup(mem, root, 2, v))
  {
    hide Translate, Lookup, Located, Children, Parents, OnPath;
    RootOnPath(where, root, v);
    TranslateIs(mem, where, root, root, 2, v);
  }

  lemma {:induction false} SameForHardware(m: Memory, w: Where, k: Memory, x: Where, root: nat)
    requires IsTree(m, w, root) && IsTree(k, x, root) && SameMap(m, k, root)
    ensures SameTranslation(m, k, root)
  {
    hide Translate, Lookup, IsTree;
    forall v | 0 <= v < MAXVPN ensures Translate(m, root, 2, v) == Translate(k, root, 2, v) {
      Translates(m, w, root, v);
      Translates(k, x, root, v);
    }
  }

  // ---------------------------------------------------------------- writing entries

  function Write(mem: Memory, p: nat, i: nat, pte: nat): (k: Memory)
    requires p in mem && i < |mem[p]|
    ensures k.Keys == mem.Keys && |k[p]| == |mem[p]| && k[p][i] == pte
    ensures forall j | 0 <= j < |mem[p]| && j != i :: k[p][j] == mem[p][j]
    ensures forall q | q in mem && q != p :: k[q] == mem[q]
  {
    var row: seq<nat> := mem[p][i := pte];
    mem[p := row]
  }

  /** What a valid entry of a table on the path leads to. */
  lemma {:induction false} ChildOnPath(mem: Memory, where: Where, root: nat, page: nat, level: nat, v: nat)
    requires IsTree(mem, where, root) && OnPath(where, page, level, v) && level <= 2
    ensures page in mem && |mem[page]| == ENTRIES
    ensures level > 0 && IsValid(mem[page][Index(v, level)]) ==>
      OnPath(where, Ppn(mem[page][Index(v, level)]), level - 1, v)
  {
    hide Parents, IsValid;
    if level > 0 && IsValid(mem[page][Index(v, level)]) {
      assert ChildOk(mem, where, page, Index(v, level));
      PrefixStep(v, level);
    }
  }

  lemma {:induction false} PathsDiffer(where: Where, p: nat, l: nat, v: nat, q: nat, k: nat, w: nat)
    requires OnPath(where, p, l, v) && OnPath(where, q, k, w)
    ensures p == q ==> l == k && Prefix(v, l) == Prefix(w, l)
  {
  }

  /** A leaf entry written leaves all other pages alone. */
  lemma {:induction false} LeafOthers(mem: Memory, where: Where, root: nat, p: nat, pte: nat, v: nat, w: nat,
                                      page: nat, level: nat)
    requires IsTree(mem, where, root) && OnPath(where, p, 0, v) && OnPath(where, page, level, w) && level <= 2 && v != w
    ensures p in mem && |mem[p]| == ENTRIES
      && Lookup(Write(mem, p, Index(v, 0), pte), page, level, w) == Lookup(mem, page, level, w)
    decreases level
  {
    hide IsTree, IsValid, Ppn, OnPath, Index, Prefix;
    ChildOnPath(mem, where, root, p, 0, v);
    ChildOnPath(mem, where, root, page, level, w);
    PathsDiffer(where, p, 0, v, page, level, w);
    if level == 0 {
      if Index(v, 0) == Index(w, 0) && Prefix(v, 0) == Prefix(w, 0) { SameIndex(v, w); }
    } else if IsValid(mem[page][Index(w, level)]) {
      LeafOthers(mem, where, root, p, pte, v, w, Ppn(mem[page][Index(w, level)]), level - 1);
    }
  }

  /** A leaf entry written is what the page translates to. */
  lemma {:induction false} LeafSelf(mem: Memory, where: Where, root: nat, p: nat, pte: nat, v: nat, page: nat,
                                    level: nat)
    requires IsTree(mem, where, root) && OnPath(where, p, 0, v) && OnPath(where, page, level, v) && level <= 2
    requires Reaches(mem, page, level, v, p, 0)
    ensures p in mem && |mem[p]| == ENTRIES
    ensures Lookup(mem, page, level, v) == if IsValid(mem[p][Index(v, 0)]) then Some(mem[p][Index(v, 0)]) else None
    ensures Lookup(Write(mem, p, Index(v, 0), pte), page, level, v) == if IsValid(pte) then Some(pte) else None
    decreases level
  {
    hide IsTree, IsValid, Ppn, OnPath, Index, Prefix;
    ChildOnPath(mem, where, root, p, 0, v);
    ChildOnPath(mem, where, root, page, level, v);
    PathsDiffer(where, p, 0, v, page, level, v);
    if level > 0 {
      LeafSelf(mem, where, root, p, pte, v, Ppn(mem[page][Index(v, level)]), level - 1);
    }
  }

  lemma {:induction false} LeafTree(mem: Memory, where: Where, root: nat, p: nat, i: nat, pte: nat)
    requires IsTree(mem, where, root) && p in where && where[p].level == 0 && i < ENTRIES
    ensures p in mem && |mem[p]| == ENTRIES && IsTree(Write(mem, p, i, pte), where, root)
  {
    hide IsValid, Ppn, Children, Parents;
    LeafChildren(mem, where, p, i, pte);
    LeafParents(mem, where, root, p, i, pte);
  }

  lemma {:induction false} LeafChildren(mem: Memory, where: Where, p: nat, i: nat, pte: nat)
    requires Children(mem, where) && Located(mem, where) && p in where && where[p].level == 0 && i < ENTRIES
    ensures Children(Write(mem, p, i, pte), where)
  {
    hide IsValid, Ppn;
    var k := Write(mem, p, i, pte);
    forall q, j | q in where && where[q].level > 0 && q in k && 0 <= j < |k[q]| && IsValid(k[q][j])
      ensures ChildOk(k, where, q, j) {
      assert q != p && ChildOk(mem, where, q, j);
    }
  }

  lemma {:induction false} LeafParents(mem: Memory, where: Where, root: nat, p: nat, i: nat, pte: nat)
    requires Parents(mem, where, root) && Located(mem, where) && p in where && where[p].level == 0 && i < ENTRIES
    ensures Parents(Write(mem, p, i, pte), where, root)
  {
    hide IsValid, Ppn;
    var k := Write(mem, p, i, pte);
    forall q | q in where && q != root ensures HasParent(k, where, q) {
      assert HasParent(mem, where, q);
      var x :| x in where && IsParent(mem, where, x, q);
      assert x != p && IsParent(k, where, x, q);
    }
  }

  /** The translation after the entry of page `v` in table `p` is written. */
  lemma {:induction false} LeafWritten(mem: Memory, where: Where, root: nat, p: nat, pte: nat, v: nat)
    requires IsTree(mem, where, root) && OnPath(where, p, 0, v) && v < MAXVPN && Reaches(mem, root, 2, v, p, 0)
    ensures p in mem && |mem[p]| == ENTRIES
    ensures var k := Write(mem, p, Index(v, 0), pte);
      && IsTree(k, where, root)
      && Lookup(k, root, 2, v) == (if IsValid(pte) then Some(pte) else None)
      && forall w | 0 <= w < MAXVPN && w != v :: Lookup(k, root, 2, w) == Lookup(mem, root, 2, w)
  {
    hide Lookup, Reaches;
    var k := Write(mem, p, Index(v, 0), pte);
    LeafTree(mem, where, root, p, Index(v, 0), pte);
    RootOnPath(where, root, v);
    LeafSelf(mem, where, root, p, pte, v, root, 2);
    forall w | 0 <= w < MAXVPN && w != v ensures Lookup(k, root, 2, w) == Lookup(mem, root, 2, w) {
      RootOnPath(where, root, w);
      LeafOthers(mem, where, root, p, pte, v, w, root, 2);
    }
  }

  lemma {:induction false} RootOnPath(where: Where, root: nat, v: nat)
    requires root in where && where[root] == Place(2, 0) && v < MAXVPN
    ensures OnPath(where, root, 2, v)
  {
    assert v / 512 < 131072 && v / 512 / 512 < 256 && Prefix(v, 1) == v / 512 / 512;
  }

  // ---------------------------------------------------------------- adding tables

  ghost function Extended(mem: Memory, p: nat, i: nat, q: nat): Memory
    requires p in mem && i < |mem[p]| && q !in mem
  {
    Write(mem[q := seq(ENTRIES, _ => 0)], p, i, MakePte(q, 0))
  }

  lemma {:induction false} ExtendedTree(mem: Memory, where: Where, root: nat, p: nat, i: nat, q: nat)
    requires IsTree(mem, where, root) && p in where && where[p].level > 0 && i < ENTRIES && p in mem
      && |mem[p]| == ENTRIES && !IsValid(mem[p][i]) && q !in mem
    requires forall x | x in where :: where[x] != Place(where[p].level - 1, where[p].prefix * 512 + i)
    ensures IsTree(Extended(mem, p, i, q), where[q := Place(where[p].level - 1, where[p].prefix * 512 + i)], root)
  {
    hide IsValid, Ppn, Parents, Children;
    var k, w := Extended(mem, p, i, q), where[q := Place(where[p].level - 1, where[p].prefix * 512 + i)];
    ExtendedChildren(mem, where, p, i, q);
    ExtendedParents(mem, where, root, p, i, q);
  }

  lemma {:induction false} ExtendedChildren(mem: Memory, where: Where, p: nat, i: nat, q: nat)
    requires Children(mem, where) && Located(mem, where) && p in where && where[p].level > 0 && i < ENTRIES
      && q !in mem && p in mem && |mem[p]| == ENTRIES
    ensures Children(Extended(mem, p, i, q), where[q := Place(where[p].level - 1, where[p].prefix * 512 + i)])
  {
    hide MakePte;
    var k, w := Extended(mem, p, i, q), where[q := Place(where[p].level - 1, where[p].prefix * 512 + i)];
    MakePteReads(q, 0);
    assert !IsValid(0);
    forall x, j | x in w && w[x].level > 0 && x in k && 0 <= j < |k[x]| && IsValid(k[x][j])
      ensures ChildOk(k, w, x, j) {
      if x != p || j != i {
        assert x != q && k[x][j] == mem[x][j] && ChildOk(mem, where, x, j);
      }
    }
  }

  lemma {:induction false} ExtendedParents(mem: Memory, where: Where, root: nat, p: nat, i: nat, q: nat)
    requires Parents(mem, where, root) && Located(mem, where) && p in where && where[p].level > 0 && i < ENTRIES
      && q !in mem && p in mem && |mem[p]| == ENTRIES
    requires !IsValid(mem[p][i])
    ensures Parents(Extended(mem, p, i, q), where[q := Place(where[p].level - 1, where[p].prefix * 512 + i)], root)
  {
    hide IsValid, Ppn, MakePte, IsParent, Extended;
    var k, w := Extended(mem, p, i, q), where[q := Place(where[p].level - 1, where[p].prefix * 512 + i)];
    NewParent(mem, where, p, i, q);
    forall y | y in w && y != root ensures HasParent(k, w, y) {
      if y != q {
        assert HasParent(mem, where, y);
        var x :| x in where && IsParent(mem, where, x, y);
        StillParent(mem, where, p, i, q, x, y);
      }
    }
  }

  lemma {:induction false} NewParent(mem: Memory, where: Where, p: nat, i: nat, q: nat)
    requires p in where && where[p].level > 0 && i < ENTRIES && q !in mem && q !in where && p in mem
      && |mem[p]| == ENTRIES
    ensures IsParent(Extended(mem, p, i, q), where[q := Place(where[p].level - 1, where[p].prefix * 512 + i)], p, q)
  {
    hide IsValid, Ppn, MakePte;
    MakePteReads(q, 0);
    ChildPlace(where[p].prefix, i);
  }

  lemma {:induction false} StillParent(mem: Memory, where: Where, p: nat, i: nat, q: nat, x: nat, y: nat)
    requires x in where && y in where && IsParent(mem, where, x, y)
    requires p in where && where[p].level > 0 && i < ENTRIES && q !in mem && q !in where && p in mem
      && |mem[p]| == ENTRIES && !IsValid(mem[p][i])
    ensures IsParent(Extended(mem, p, i, q), where[q := Place(where[p].level - 1, where[p].prefix * 512 + i)], x, y)
  {
    hide IsValid, Ppn, MakePte;
  }

  lemma {:induction false} ChildPlace(prefix: nat, i: nat)
    requires i < ENTRIES
    ensures (prefix * 512 + i) / 512 == prefix && (prefix * 512 + i) % 512 == i
  {
  }

  /** Below an invalid entry there is no table. */
  lemma {:induction false} NoSuchTable(mem: Memory, where: Where, root: nat, p: nat, i: nat)
    requires IsTree(mem, where, root) && p in where && where[p].level > 0 && i < ENTRIES && p in mem
      && |mem[p]| == ENTRIES && !IsValid(mem[p][i])
    ensures forall x | x in where :: where[x] != Place(where[p].level - 1, where[p].prefix * 512 + i)
  {
    hide IsValid, Ppn, Children, HasParent, IsParent;
    forall x | x in where && x != root ensures where[x] != Place(where[p].level - 1, where[p].prefix * 512 + i) {
      NotBelow(mem, where, p, i, x);
    }
  }

  lemma {:induction false} NotBelow(mem: Memory, where: Where, p: nat, i: nat, x: nat)
    requires Located(mem, where) && p in where && where[p].level > 0 && i < ENTRIES && p in mem && |mem[p]| == ENTRIES
      && !IsValid(mem[p][i])
    requires x in where && HasParent(mem, where, x)
    ensures where[x] != Place(where[p].level - 1, where[p].prefix * 512 + i)
  {
    hide IsValid, Ppn;
    ChildPlace(where[p].prefix, i);
    var y :| y in where && IsParent(mem, where, y, x);
    assert where[y] == where[p] ==> y == p;
  }

  /** An empty table in the place of an invalid entry changes no translation. */
  lemma {:induction false} ExtendedMap(mem: Memory, where: Where, root: nat, p: nat, i: nat, q: nat, v: nat,
                                       page: nat, level: nat)
    requires IsTree(mem, where, root) && p in where && where[p].level > 0 && i < ENTRIES && p in mem
      && |mem[p]| == ENTRIES && !IsValid(mem[p][i]) && q !in mem
    requires OnPath(where, page, level, v) && level <= 2
    ensures Lookup(Extended(mem, p, i, q), page, level, v) == Lookup(mem, page, level, v)
    decreases level
  {
    hide IsTree, OnPath, Index, Prefix, MakePte;
    var k := Extended(mem, p, i, q);
    ChildOnPath(mem, where, root, page, level, v);
    TableLevel(where, p, page, level, v);
    MakePteReads(q, 0);
    if page == p && Index(v, level) == i {
      assert k[q] == seq(ENTRIES, _ => 0);
      assert Lookup(k, q, level - 1, v) == None;
    } else if level > 0 && IsValid(mem[page][Index(v, level)]) {
      ExtendedMap(mem, where, root, p, i, q, v, Ppn(mem[page][Index(v, level)]), level - 1);
    }
  }

  lemma {:induction false} TableLevel(where: Where, p: nat, page: nat, level: nat, v: nat)
    requires OnPath(where, page, level, v) && p in where
    ensures page == p ==> level == where[p].level
  {
  }

  /** A walk that has come as far as table `page` still does after a table was added below it. */
  lemma {:induction false} ExtendedReaches(mem: Memory, where: Where, root: nat, p: nat, i: nat, q: nat, v: nat,
                                           page: nat, level: nat, x: nat, low: nat)
    requires IsTree(mem, where, root) && p in where && where[p].level > 0 && i < ENTRIES && p in mem
      && |mem[p]| == ENTRIES && !IsValid(mem[p][i]) && q !in mem
    requires OnPath(where, page, level, v) && level <= 2 && Reaches(mem, page, level, v, x, low)
    ensures Reaches(Extended(mem, p, i, q), page, level, v, x, low)
    decreases level
  {
    hide IsTree, OnPath, Index, Prefix, IsValid, Ppn;
    ChildOnPath(mem, where, root, page, level, v);
    if level > low {
      ExtendedReaches(mem, where, root, p, i, q, v, Ppn(mem[page][Index(v, level)]), level - 1, x, low);
    }
  }

  /** One step further down. */
  lemma {:induction false} ReachesDown(mem: Memory, page: nat, level: nat, v: nat, x: nat, low: nat)
    requires 0 < low <= level && Reaches(mem, page, level, v, x, low)
    requires x in mem && |mem[x]| == ENTRIES && IsValid(mem[x][Index(v, low)])
    ensures Reaches(mem, page, level, v, Ppn(mem[x][Index(v, low)]), low - 1)
    decreases level
  {
    if level > low {
      ReachesDown(mem, Ppn(mem[page][Index(v, level)]), level - 1, v, x, low);
    }
  }

  // ---------------------------------------------------------------- the kernel's operations

  class PageTables {
    var mem: Memory
    /** The pages the allocator will hand out, in turn; none of them is in use as a table. */
    var pool: seq<nat>
    ghost var where: Where

    ghost predicate Valid(root: nat)
      reads this
    {
      IsTree(mem, where, root) && Fresh(mem, pool)
    }

    /** `pagetable_create` */
    constructor (root: nat, pool: seq<nat>)
      requires Fresh(map[root := seq(ENTRIES, _ => 0)], pool)
      ensures Valid(root) && forall v :: Lookup(mem, root, 2, v) == None && Translate(mem, root, 2, v) == None
    {
      mem := map[root := seq(ENTRIES, _ => 0)];
      this.pool := pool;
      where := map[root := Place(2, 0)];
    }

    /** `walk`: the table and index of the leaf entry of a page, if there is or can be made one. */
    method Walk(root: nat, vpn: nat, alloc: bool) returns (r: Option<nat>)
      requires Valid(root) && vpn < MAXVPN
      modifies this
      ensures Valid(root) && SameMap(old(mem), mem, root) && old(where).Keys <= where.Keys
      ensures SameTranslation(old(mem), mem, root) && Owned(where, pool) == old(Owned(where, pool))
      ensures !alloc ==> mem == old(mem) && where == old(where) && pool == old(pool)
      ensures r.Some? ==> OnPath(where, r.value, 0, vpn) && Reaches(mem, root, 2, vpn, r.value, 0)
      ensures r.None? ==> Lookup(mem, root, 2, vpn) == None && (alloc ==> pool == [])
    {
      hide Lookup, Translate, IsTree, Reaches, Fresh, Owned, SameTranslation;
      RootFacts(mem, where, root, vpn);
      SameSelf(mem, root);
      var page, level := root, 2;
      while level > 0
        invariant 0 <= level <= 2 && Valid(root) && OnPath(where, page, level, vpn)
          && Reaches(mem, root, 2, vpn, page, level)
        invariant SameMap(old(mem), mem, root) && old(where).Keys <= where.Keys
        invariant Owned(where, pool) == old(Owned(where, pool))
        invariant !alloc ==> mem == old(mem) && where == old(where) && pool == old(pool)
      {
        TableFacts(mem, where, root, page, level, vpn);
        var i := Index(vpn, level);
        if IsValid(mem[page][i]) {
          page := Ppn(mem[page][i]);
        } else {
          NotMapped(mem, where, root, page, level, vpn);
          if !alloc || pool == [] {
            SameForHardware(old(mem), old(where), mem, where, root);
            return None;
          }
          var q := pool[0];
          AddTable(mem, where, root, page, level, vpn, pool);
          SameTrans(old(mem), mem, Extended(mem, page, i, q), root);
          OwnedMoves(where, pool, Place(level - 1, Prefix(vpn, level - 1)));
          pool := pool[1..];
          mem := Write(mem[q := seq(ENTRIES, _ => 0)], page, i, MakePte(q, 0));
          where := where[q := Place(level - 1, Prefix(vpn, level - 1))];
          page := q;
        }
        level := level - 1;
      }
      SameForHardware(old(mem), old(where), mem, where, root);
      r := Some(page);
    }

    /** `walk_addr`: the physical page of a page that user code may touch; zero if there is none. */
    method WalkAddr(root: nat, vpn: nat) returns (ppn: nat)
      requires Valid(root)
      modifies this
      ensures Valid(root) && mem == old(mem) && where == old(where) && pool == old(pool)
      ensures ppn == if vpn < MAXVPN && Lookup(mem, root, 2, vpn).Some? && Lookup(mem, root, 2, vpn).value / 16 % 2 == 1
                     then Ppn(Lookup(mem, root, 2, vpn).value) else 0
    {
      hide Lookup, IsTree, Reaches, Fresh;
      if vpn >= MAXVPN {
        return 0;
      }
      var r := Walk(root, vpn, false);
      if r.None? {
        return 0;
      }
      LeafRead(mem, where, root, r.value, vpn);
      var pte := mem[r.value][Index(vpn, 0)];
      if !IsValid(pte) || !IsUser(pte) {
        return 0;
      }
      ppn := Ppn(pte);
    }

    /** `map_range_in_pgtbl` over `pages` pages; `done` is how many of them were mapped. */
    method MapRange(root: nat, vpn: nat, ppn: nat, pages: nat, perm: nat) returns (r: Outcome, ghost done: nat)
      requires Valid(root) && perm < 1024
      modifies this
      ensures Valid(root) && Owned(where, pool) == old(Owned(where, pool)) && old(where).Keys <= where.Keys
      ensures Mapped(old(mem), mem, root, vpn, ppn, done, perm)
      ensures Translated(old(mem), mem, root, vpn, ppn, done, perm)
      ensures Ends(r, vpn, pages, done) && (r == Missing ==> pool == [])
    {
      hide Lookup, Translate, IsTree, Reaches, Fresh, MakePte, OnPath, Owned, Mapped, Translated, SameTranslation;
      MappedStart(mem, root, vpn, ppn, perm);
      var a, p := vpn, ppn;
      r, done := Done, 0;
      while true
        invariant Valid(root) && Owned(where, pool) == old(Owned(where, pool)) && old(where).Keys <= where.Keys
        invariant a == vpn + done && p == ppn + done && Going(vpn, pages, done)
        invariant Mapped(old(mem), mem, root, vpn, ppn, done, perm)
        decreases MAXVPN - a
      {
        if a >= MAXVPN {
          r := Panic;
          break;
        }
        ghost var m := mem;
        var t := Walk(root, a, true);
        MappedSame(old(mem), m, mem, root, vpn, ppn, done, perm);
        if t.None? {
          r := Missing;
          break;
        }
        MakePteReads(p, perm);
        LeafWritten(mem, where, root, t.value, MakePte(p, perm), a);
        MappedMore(old(mem), mem, Write(mem, t.value, Index(a, 0), MakePte(p, perm)), root, vpn, ppn, done, perm);
        WriteFresh(mem, pool, t.value, Index(a, 0), MakePte(p, perm));
        mem := Write(mem, t.value, Index(a, 0), MakePte(p, perm));
        done := done + 1;
        if a == vpn + pages - 1 {
          break;
        }
        a, p := a + 1, p + 1;
      }
      MappedForHardware(old(mem), old(where), mem, where, root, vpn, ppn, done, perm);
    }

    /** `unmap_range_in_pgtbl`; it gives up at a page that no last-level table serves. */
    method UnmapRange(root: nat, vpn: nat, pages: nat) returns (r: Outcome, ghost done: nat)
      requires Valid(root)
      modifies this
      ensures Valid(root) && where == old(where) && pool == old(pool)
      ensures Unmapped(old(mem), mem, root, vpn, done)
      ensures Untranslated(old(mem), mem, root, vpn, done)
      ensures Ends(r, vpn, pages, done) && (r == Missing ==> Lookup(mem, root, 2, vpn + done) == None)
    {
      hide Lookup, Translate, IsTree, Reaches, Fresh, OnPath, Unmapped, Untranslated, SameTranslation;
      UnmappedStart(mem, root, vpn);
      var a := vpn;
      r, done := Done, 0;
      while true
        invariant Valid(root) && where == old(where) && pool == old(pool) && a == vpn + done
        invariant Unmapped(old(mem), mem, root, vpn, done) && Going(vpn, pages, done)
        decreases MAXVPN - a
      {
        if a >= MAXVPN {
          r := Panic;
          break;
        }
        var t := Walk(root, a, false);
        if t.None? {
          r := Missing;
          break;
        }
        LeafWritten(mem, where, root, t.value, 0, a);
        UnmappedMore(old(mem), mem, Write(mem, t.value, Index(a, 0), 0), root, vpn, done);
        WriteFresh(mem, pool, t.value, Index(a, 0), 0);
        mem := Write(mem, t.value, Index(a, 0), 0);
        done := done + 1;
        if a == vpn + pages - 1 {
          break;
        }
        a := a + 1;
      }
      UnmappedForHardware(old(mem), old(where), mem, where, root, vpn, done);
    }
  }

  // ---------------------------------------------------------------- the operations as values

  ghost predicate Fresh(mem: Memory, pool: seq<nat>) {
    && (forall i | 0 <= i < |pool| :: pool[i] !in mem)
    && (forall i, j | 0 <= i < j < |pool| :: pool[i] != pool[j])
  }

  /** The pages that are tables or still to be handed out; none is lost and none appears. */
  ghost function Owned(where: Where, pool: seq<nat>): set<nat> {
    where.Keys + set p | p in pool
  }

  lemma {:induction false} OwnedMoves(where: Where, pool: seq<nat>, place: Place)
    requires pool != []
    ensures Owned(where[pool[0] := place], pool[1..]) == Owned(where, pool)
  {
    assert pool == [pool[0]] + pool[1..];
  }

  lemma {:induction false} WriteFresh(mem: Memory, pool: seq<nat>, p: nat, i: nat, pte: nat)
    requires Fresh(mem, pool) && p in mem && i < |mem[p]|
    ensures Fresh(Write(mem, p, i, pte), pool)
  {
  }

  lemma {:induction false} RootFacts(mem: Memory, where: Where, root: nat, vpn: nat)
    requires IsTree(mem, where, root) && vpn < MAXVPN
    ensures OnPath(where, root, 2, vpn) && Reaches(mem, root, 2, vpn, root, 2)
  {
    hide OnPath;
    RootOnPath(where, root, vpn);
  }

  lemma {:induction false} SameSelf(m: Memory, root: nat)
    ensures SameMap(m, m, root)
  {
  }

  lemma {:induction false} SameTrans(m: Memory, k: Memory, l: Memory, root: nat)
    requires SameMap(m, k, root) && SameMap(k, l, root)
    ensures SameMap(m, l, root)
  {
    hide Lookup;
  }

  /** Where a valid entry of a table on the path leads. */
  lemma {:induction false} TableFacts(mem: Memory, where: Where, root: nat, page: nat, level: nat, vpn: nat)
    requires IsTree(mem, where, root) && OnPath(where, page, level, vpn) && Reaches(mem, root, 2, vpn, page, level)
      && 0 < level <= 2
    ensures page in mem && |mem[page]| == ENTRIES
    ensures IsValid(mem[page][Index(vpn, level)]) ==>
      var q := Ppn(mem[page][Index(vpn, level)]);
        OnPath(where, q, level - 1, vpn) && Reaches(mem, root, 2, vpn, q, level - 1)
  {
    ChildOnPath(mem, where, root, page, level, vpn);
    if IsValid(mem[page][Index(vpn, level)]) {
      ReachesDown(mem, root, 2, vpn, page, level);
    }
  }

  /** A walk that meets an invalid entry belongs to a page without translation. */
  lemma {:induction false} NotMapped(mem: Memory, where: Where, root: nat, page: nat, level: nat, vpn: nat)
    requires IsTree(mem, where, root) && OnPath(where, page, level, vpn) && Reaches(mem, root, 2, vpn, page, level)
      && level <= 2
    requires page in mem && |mem[page]| == ENTRIES && !IsValid(mem[page][Index(vpn, level)])
    ensures Lookup(mem, root, 2, vpn) == None
  {
    NotMappedFrom(mem, root, 2, page, level, vpn);
  }

  lemma {:induction false} NotMappedFrom(mem: Memory, top: nat, high: nat, page: nat, level: nat, vpn: nat)
    requires level <= high && Reaches(mem, top, high, vpn, page, level)
    requires page in mem && |mem[page]| == ENTRIES && !IsValid(mem[page][Index(vpn, level)])
    ensures Lookup(mem, top, high, vpn) == None
    decreases high
  {
    if high > level {
      NotMappedFrom(mem, Ppn(mem[top][Index(vpn, high)]), high - 1, page, level, vpn);
    }
  }

  lemma {:induction false} AddTable(mem: Memory, where: Where, root: nat, page: nat, level: nat, vpn: nat,
                                    pool: seq<nat>)
    requires IsTree(mem, where, root) && Fresh(mem, pool) && pool != [] && 0 < level <= 2 && vpn < MAXVPN
    requires OnPath(where, page, level, vpn) && Reaches(mem, root, 2, vpn, page, level)
    requires page in mem && |mem[page]| == ENTRIES && !IsValid(mem[page][Index(vpn, level)])
    ensures pool[0] !in mem && pool[0] !in where
    ensures var q, i := pool[0], Index(vpn, level);
      var k, w := Extended(mem, page, i, q), where[q := Place(level - 1, Prefix(vpn, level - 1))];
      && IsTree(k, w, root) && Fresh(k, pool[1..]) && SameMap(mem, k, root)
      && OnPath(w, q, level - 1, vpn) && Reaches(k, root, 2, vpn, q, level - 1)
  {
    hide Lookup, Reaches, Parents, Children, IsValid, Ppn, MakePte, Index, Prefix;
    var q, i := pool[0], Index(vpn, level);
    var k := Extended(mem, page, i, q);
    PrefixStep(vpn, level);
    NoSuchTable(mem, where, root, page, i);
    ExtendedTree(mem, where, root, page, i, q);
    forall v | 0 <= v < MAXVPN ensures Lookup(mem, root, 2, v) == Lookup(k, root, 2, v) {
      RootOnPath(where, root, v);
      ExtendedMap(mem, where, root, page, i, q, v, root, 2);
    }
    RootOnPath(where, root, vpn);
    ExtendedReaches(mem, where, root, page, i, q, vpn, root, 2, page, level);
    MakePteReads(q, 0);
    ReachesDown(k, root, 2, vpn, page, level);
  }

  lemma {:induction false} LeafRead(mem: Memory, where: Where, root: nat, p: nat, vpn: nat)
    requires IsTree(mem, where, root) && OnPath(where, p, 0, vpn) && Reaches(mem, root, 2, vpn, p, 0) && vpn < MAXVPN
    ensures p in mem && |mem[p]| == ENTRIES
    ensures Lookup(mem, root, 2, vpn) == if IsValid(mem[p][Index(vpn, 0)]) then Some(mem[p][Index(vpn, 0)]) else None
  {
    RootOnPath(where, root, vpn);
    LeafSelf(mem, where, root, p, 0, vpn, root, 2);
  }

  /** How a loop over pages ends: with the last page, without a table, or beyond the highest address */
  datatype Outcome = Done | Missing | Panic

  /**
   The loops test for the last page after a page is done, so that they end with it exactly if there
   is one; with a size of zero they go on to the highest address.
   */
  ghost predicate Ends(r: Outcome, vpn: nat, pages: nat, done: nat) {
    && (r == Done ==> 0 < pages && vpn + pages <= MAXVPN && done == pages)
    && (r == Missing ==> vpn + done < MAXVPN && (pages > 0 ==> done < pages))
    && (r == Panic ==> (pages == 0 || vpn + pages > MAXVPN) && vpn + done == if vpn < MAXVPN then MAXVPN else vpn)
  }

  ghost predicate Going(vpn: nat, pages: nat, done: nat) {
    (done == 0 || vpn + done <= MAXVPN) && (pages > 0 ==> done < pages)
  }

  ghost predicate Mapped(m: Memory, k: Memory, root: nat, vpn: nat, ppn: nat, n: nat, perm: nat)
    requires perm < 1024
  {
    && (forall w | vpn <= w < vpn + n :: Lookup(k, root, 2, w) == Some(MakePte(ppn + (w - vpn), perm)))
    && (forall w | 0 <= w < MAXVPN && !(vpn <= w < vpn + n) :: Lookup(k, root, 2, w) == Lookup(m, root, 2, w))
  }

  lemma {:induction false} MappedSame(m: Memory, k: Memory, l: Memory, root: nat, vpn: nat, ppn: nat, n: nat, perm: nat)
    requires perm < 1024 && (n == 0 || vpn + n <= MAXVPN)
    requires Mapped(m, k, root, vpn, ppn, n, perm) && SameMap(k, l, root)
    ensures Mapped(m, l, root, vpn, ppn, n, perm)
  {
    hide Lookup, MakePte;
  }

  lemma {:induction false} MappedMore(m: Memory, k: Memory, l: Memory, root: nat, vpn: nat, ppn: nat, n: nat, perm: nat)
    requires perm < 1024 && vpn + n < MAXVPN && Mapped(m, k, root, vpn, ppn, n, perm)
    requires Lookup(l, root, 2, vpn + n) == Some(MakePte(ppn + n, perm))
    requires forall w | 0 <= w < MAXVPN && w != vpn + n :: Lookup(l, root, 2, w) == Lookup(k, root, 2, w)
    ensures Mapped(m, l, root, vpn, ppn, n + 1, perm)
  {
    hide Lookup, MakePte;
  }

  ghost predicate Unmapped(m: Memory, k: Memory, root: nat, vpn: nat, n: nat) {
    && (forall w | vpn <= w < vpn + n :: Lookup(k, root, 2, w) == None)
    && (forall w | 0 <= w < MAXVPN && !(vpn <= w < vpn + n) :: Lookup(k, root, 2, w) == Lookup(m, root, 2, w))
  }

  lemma {:induction false} UnmappedMore(m: Memory, k: Memory, l: Memory, root: nat, vpn: nat, n: nat)
    requires vpn + n < MAXVPN && Unmapped(m, k, root, vpn, n) && Lookup(l, root, 2, vpn + n) == None
    requires forall w | 0 <= w < MAXVPN && w != vpn + n :: Lookup(l, root, 2, w) == Lookup(k, root, 2, w)
    ensures Unmapped(m, l, root, vpn, n + 1)
  {
    hide Lookup;
  }

  lemma {:induction false} MappedStart(m: Memory, root: nat, vpn: nat, ppn: nat, perm: nat)
    requires perm < 1024
    ensures Mapped(m, m, root, vpn, ppn, 0, perm)
  {
  }

  lemma {:induction false} UnmappedStart(m: Memory, root: nat, vpn: nat)
    ensures Unmapped(m, m, root, vpn, 0)
  {
  }

  /** To the hardware a mapped page translates if and only if the permissions make a legal leaf. */
  ghost predicate Translated(m: Memory, k: Memory, root: nat, vpn: nat, ppn: nat, n: nat, perm: nat)
    requires perm < 1024
  {
    && (forall w | vpn <= w < vpn + n ::
          Translate(k, root, 2, w) == if LegalLeaf(perm) then Some(MakePte(ppn + (w - vpn), perm)) else None)
    && (forall w | 0 <= w < MAXVPN && !(vpn <= w < vpn + n) :: Translate(k, root, 2, w) == Translate(m, root, 2, w))
  }

  ghost predicate Untranslated(m: Memory, k: Memory, root: nat, vpn: nat, n: nat) {
    && (forall w | vpn <= w < vpn + n :: Translate(k, root, 2, w) == None)
    && (forall w | 0 <= w < MAXVPN && !(vpn <= w < vpn + n) :: Translate(k, root, 2, w) == Translate(m, root, 2, w))
  }

  lemma {:induction false} MappedForHardware(m: Memory, w: Where, k: Memory, x: Where, root: nat, vpn: nat, ppn: nat,
                                             n: nat, perm: nat)
    requires perm < 1024 && (n == 0 || vpn + n <= MAXVPN) && IsTree(m, w, root) && IsTree(k, x, root)
      && Mapped(m, k, root, vpn, ppn, n, perm)
    ensures Translated(m, k, root, vpn, ppn, n, perm)
  {
    hide Translate, Lookup, IsTree, MakePte, LegalLeaf;
    forall v | 0 <= v < MAXVPN
      ensures Translate(m, root, 2, v) == Legal(Lookup(m, root, 2, v))
        && Translate(k, root, 2, v) == Legal(Lookup(k, root, 2, v))
    {
      Translates(m, w, root, v);
      Translates(k, x, root, v);
    }
    forall v | vpn <= v < vpn + n
      ensures Translate(k, root, 2, v) == if LegalLeaf(perm) then Some(MakePte(ppn + (v - vpn), perm)) else None
    {
      assert Lookup(k, root, 2, v) == Some(MakePte(ppn + (v - vpn), perm));
      MakePteReads(ppn + (v - vpn), perm);
    }
  }

  lemma {:induction false} UnmappedForHardware(m: Memory, w: Where, k: Memory, x: Where, root: nat, vpn: nat, n: nat)
    requires (n == 0 || vpn + n <= MAXVPN) && IsTree(m, w, root) && IsTree(k, x, root) && Unmapped(m, k, root, vpn, n)
    ensures Untranslated(m, k, root, vpn, n)
  {
    hide Translate, Lookup, IsTree;
    forall v | 0 <= v < MAXVPN
      ensures Translate(m, root, 2, v) == Legal(Lookup(m, root, 2, v))
        && Translate(k, root, 2, v) == Legal(Lookup(k, root, 2, v))
    {
      Translates(m, w, root, v);
      Translates(k, x, root, v);
    }
  }
}
