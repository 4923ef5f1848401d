/**
 The driver side of a split virtqueue (driver/virtio/virtio.c) against a device that takes
 published chains and returns them in any order, as section 2.6 of the Virtual I/O Device (VIRTIO)
 Version 1.1 specification lets it.

 The fields of `Queue` are the shared memory and the driver's two indices.  The ghost `Trace` tells
 the story of a run: which chains were sent, where they are, in what order they came back and which
 descriptors were handed to the `free_desc` callback.
 */
module Virtqueue {
  import opened Lists
  import opened Wrappers

  const VIRTIO_RING_SIZE: nat := 128
  const WRAP: nat := 0x1_0000

  const VRING_DESC_F_NEXT: nat := 1
  const VRING_DESC_F_WRITE: nat := 2

  datatype Desc = Desc(addr: nat, len: nat, flags: nat, next: nat)

  const EMPTY: Desc := Desc(0, 0, 0, 0)

  function HasNext(d: Desc): bool {
    d.flags % 2 == 1
  }

  /** `flags | VRING_DESC_F_NEXT` for flags without that bit, and `flags | VRING_DESC_F_WRITE`. */
  function OrFlag(flags: nat, bit: nat): (r: nat)
    requires flags % 2 == 0 && (bit == VRING_DESC_F_NEXT || bit == VRING_DESC_F_WRITE)
    ensures r != 0 && (r % 2 == 1 <==> bit == VRING_DESC_F_NEXT)
  {
    if bit == VRING_DESC_F_NEXT then flags + 1 else if flags / 2 % 2 == 1 then flags else flags + 2
  }

  /**
   A descriptor in the table carries the one passed in: the same buffer and flags, with bit 0 set if
   the chain goes on, and otherwise with bit 1 set, which lets the device write.
   */
  ghost predicate Carries(w: Desc, d: Desc, more: bool) {
    && w.addr == d.addr && w.len == d.len
    && (more ==> w.flags % 2 == 1 && w.flags / 2 == d.flags / 2)
    && (!more ==> w.flags % 2 == 0 && w.flags / 2 % 2 == 1 && w.flags / 4 == d.flags / 4)
  }

  /** A chain from slot `h` on carries a request: each descriptor but the last leads to the next slot. */
  ghost predicate Carried(ws: seq<Desc>, h: nat, ds: seq<Desc>) {
    && |ws| == |ds|
    && forall i | 0 <= i < |ds| ::
         && Carries(ws[i], ds[i], i + 1 < |ds|)
         && ws[i].next == if i + 1 < |ds| then (h + i + 1) % VIRTIO_RING_SIZE else 0
  }

  /** The slot `i` places after `h`. */
  function Slot(h: nat, i: nat): (s: nat)
    ensures s < VIRTIO_RING_SIZE
  {
    (h + i) % VIRTIO_RING_SIZE
  }

  /** Descriptors as the callers build them, not yet linked */
  ghost predicate Plain(ds: seq<Desc>) {
    forall d | d in ds :: d.flags % 2 == 0
  }

  /** A descriptor as `virtio_desc_new` writes it into slot `s` */
  function Written(d: Desc, flag: nat, s: nat): Desc
    requires d.flags % 2 == 0 && (flag == VRING_DESC_F_NEXT || flag == VRING_DESC_F_WRITE)
  {
    d.(flags := OrFlag(d.flags, flag), next := if flag == VRING_DESC_F_NEXT then Slot(s, 1) else 0)
  }

  /** The descriptors of a request as they are written from slot `h` on. */
  ghost function Linked(h: nat, ds: seq<Desc>): (r: seq<Desc>)
    requires Plain(ds)
    ensures |r| == |ds|
  {
    seq(|ds|, i requires 0 <= i < |ds| =>
      if i + 1 < |ds| then ds[i].(flags := OrFlag(ds[i].flags, VRING_DESC_F_NEXT), next := Slot(h, i + 1))
      else ds[i].(flags := OrFlag(ds[i].flags, VRING_DESC_F_WRITE), next := 0))
  }

  datatype Chain = Chain(id: nat, descs: seq<Desc>)

  /**
   `sent[id]` is the `id`th request ever published.  `chains` gives, by first slot, the chains whose
   slots are in use: published (`pend`), with the device (`flight`), returned but unread (`done`) or
   partly handed back (`cur`).  `history` is the order in which chains came back, `read` how many of
   those the driver has read, and `busy` whether it is still handing back the last one of these.
   */
  datatype Trace = Trace(
    sent: seq<seq<Desc>>, chains: map<nat, Chain>,
    pend: seq<nat>, flight: set<nat>, done: seq<nat>, cur: Option<nat>,
    history: seq<nat>, read: nat, busy: bool, freed: seq<Desc>)

  // ---------------------------------------------------------------- what holds in every state

  /** A chain in memory: no slot is free, and each descriptor leads to the next slot. */
  ghost predicate ChainAt(desc: seq<Desc>, h: nat, ds: seq<Desc>) {
    && |desc| == VIRTIO_RING_SIZE && h < VIRTIO_RING_SIZE && 0 < |ds| <= 3
    && forall i | 0 <= i < |ds| ::
         && desc[Slot(h, i)] == ds[i] && ds[i].flags != 0
         && (HasNext(ds[i]) <==> i + 1 < |ds|) && (HasNext(ds[i]) ==> ds[i].next == Slot(h, i + 1))
  }

  ghost predicate Uses(h: nat, n: nat, s: nat) {
    exists i | 0 <= i < n :: s == Slot(h, i)
  }

  /** No two chains in use share a slot. */
  ghost predicate Apart(chains: map<nat, Chain>) {
    forall h, g, s | h in chains && g in chains && h != g
      && Uses(h, |chains[h].descs|, s) :: !Uses(g, |chains[g].descs|, s)
  }

  ghost predicate MemInv(desc: seq<Desc>, chains: map<nat, Chain>) {
    && |desc| == VIRTIO_RING_SIZE
    && (forall h | h in chains :: ChainAt(desc, h, chains[h].descs))
    && Apart(chains)
  }

  ghost predicate HeadsInv(g: Trace) {
    && NoDup(g.pend) && NoDup(g.done)
    && (forall h | h in g.pend :: h in g.chains && h !in g.flight && h !in g.done && g.cur != Some(h))
    && (forall h | h in g.flight :: h in g.chains && h !in g.done && g.cur != Some(h))
    && (forall h | h in g.done :: h in g.chains && g.cur != Some(h))
    && (forall h | h in g.chains ::
       h < VIRTIO_RING_SIZE && (h in g.pend || h in g.flight || h in g.done || g.cur == Some(h)))
    && (g.cur.Some? ==> g.cur.value in g.chains && g.busy)
  }

  /** The descriptors of the requests `ids`, one request after the other. */
  ghost function Flatten(sent: seq<seq<Desc>>, ids: seq<nat>): seq<Desc> {
    if ids == [] then []
    else Flatten(sent, ids[..|ids| - 1]) + (var id := ids[|ids| - 1]; if id < |sent| then sent[id] else [])
  }

  ghost function Rest(g: Trace): seq<Desc> {
    if g.cur.Some? && g.cur.value in g.chains then g.chains[g.cur.value].descs else []
  }

  /** The chains that the driver has published and the device has not returned. */
  ghost function Waiting(g: Trace): set<nat> {
    g.flight + set h | h in g.pend
  }

  /** Waiting chains are requests that were sent, each a different one and none already returned. */
  ghost predicate IdInv(sent: seq<seq<Desc>>, chains: map<nat, Chain>, waiting: set<nat>, history: seq<nat>) {
    && (forall h | h in waiting ::
          h in chains && chains[h].id < |sent| && chains[h].id !in history && chains[h].descs == sent[chains[h].id])
    && (forall h, k | h in waiting && k in waiting
       && h != k :: h in chains && k in chains && chains[h].id != chains[k].id)
    && (forall id | id in history :: id < |sent|)
  }

  /** Returned chains that are yet unread are the requests the history says they are. */
  ghost predicate DoneInv(sent: seq<seq<Desc>>, chains: map<nat, Chain>, done: seq<nat>, history: seq<nat>, read: nat) {
    && |history| == read + |done|
    && forall i | 0 <= i < |done| ::
         && done[i] in chains && chains[done[i]].id == history[read + i]
         && chains[done[i]].id < |sent| && chains[done[i]].descs == sent[chains[done[i]].id]
  }

  /** Exactly the descriptors of the requests read so far have been handed back, in order. */
  ghost predicate FreedInv(g: Trace) {
    && g.read <= |g.history| && (g.busy ==> g.read > 0)
    && g.freed + Rest(g) == Flatten(g.sent, g.history[..g.read])
  }

  ghost predicate TraceInv(g: Trace) {
    && NoDup(g.history) && |g.sent| == |g.pend| + |g.flight| + |g.history|
    && IdInv(g.sent, g.chains, Waiting(g), g.history)
    && DoneInv(g.sent, g.chains, g.done, g.history, g.read)
    && FreedInv(g)
  }

  /** A ring holds these heads from the place `from` on. */
  ghost predicate Unread(ring: seq<nat>, from: nat, heads: seq<nat>) {
    |ring| == VIRTIO_RING_SIZE && forall i | 0 <= i < |heads| :: ring[(from + i) % VIRTIO_RING_SIZE] == heads[i]
  }

  /** The rings hold the heads that their readers have yet to read, despite the 16-bit indices. */
  ghost predicate RingInv(avail: seq<nat>, availIdx: nat, seen: nat, used: seq<nat>, usedIdx: nat, ack: nat, g: Trace) {
    && |avail| == |used| == VIRTIO_RING_SIZE
    && |g.pend| <= |g.sent|
    && availIdx == |g.sent| % WRAP && seen == (|g.sent| - |g.pend|) % WRAP
    && usedIdx == |g.history| % WRAP && ack == (if g.busy then g.read - 1 else g.read) % WRAP
    && Unread(avail, |g.sent| - |g.pend|, g.pend) && Unread(used, g.read, g.done)
  }

  // ---------------------------------------------------------------- the queue

  class Queue {
    /** The descriptor table, the rings and their indices, and how far the device has read. */
    var desc: seq<Desc>
    var avail: seq<nat>
    var availIdx: nat
    var used: seq<nat>
    var usedIdx: nat
    var seen: nat
    var held: set<nat>
    /** The driver's next slot and how far it has read the used ring. */
    var idx: nat
    var ack: nat
    ghost var g: Trace

    ghost predicate Valid()
      reads this
    {
      && idx < VIRTIO_RING_SIZE && |desc| == VIRTIO_RING_SIZE && held == g.flight
      && MemInv(desc, g.chains) && HeadsInv(g) && TraceInv(g)
      && RingInv(avail, availIdx, seen, used, usedIdx, ack, g)
    }

    constructor ()
      ensures Valid() && !g.busy && g.sent == [] && g.freed == []
      ensures idx == 0 && forall s | 0 <= s < |desc| :: desc[s] == EMPTY
    {
      desc := seq(VIRTIO_RING_SIZE, _ => EMPTY);
      avail, used := seq(VIRTIO_RING_SIZE, _ => 0), seq(VIRTIO_RING_SIZE, _ => 0);
      availIdx, usedIdx, seen, idx, ack, held := 0, 0, 0, 0, 0, {};
      g := Trace([], map[], [], {}, [], None, [], 0, false, []);
    }

    /** `virtio_desc_new`; writes only to a slot that no chain uses. */
    method DescNew(d: Desc, flag: nat) returns (ok: bool)
      requires Valid() && d.flags % 2 == 0 && (flag == VRING_DESC_F_NEXT || flag == VRING_DESC_F_WRITE)
      modifies this`desc, this`idx
      ensures Valid()
      ensures ok <==> old(desc[idx]).flags == 0
      ensures !ok ==> desc == old(desc) && idx == old(idx)
      ensures ok ==>
        && Unused(g.chains, old(idx)) && idx == Slot(old(idx), 1)
        && desc == old(desc)[old(idx) := Written(d, flag, old(idx))]
        && Carries(desc[old(idx)], d, flag == VRING_DESC_F_NEXT)
    {
      hide Flatten, HeadsInv, TraceInv, RingInv, Apart, ChainAt;
      var d' := d.(next := if flag == VRING_DESC_F_NEXT then (idx + 1) % VIRTIO_RING_SIZE else 0);
      d' := d'.(flags := OrFlag(d.flags, flag));
      if desc[idx].flags != 0 {
        return false;
      }
      FreeSlot(desc, g.chains, idx, d');
      WrittenCarries(d, flag, idx);
      desc := desc[idx := d'];
      idx := (idx + 1) % VIRTIO_RING_SIZE;
      ok := true;
    }

    /** `virtio_avail_new`, for a chain that is complete in memory. */
    method AvailNew(head: nat, ghost ds: seq<Desc>)
      requires Valid() && ChainAt(desc, head, ds) && forall i | 0 <= i < |ds| :: Unused(g.chains, Slot(head, i))
      modifies this`avail, this`availIdx, this`g
      ensures Valid() && g == Published(old(g), head, ds) && head !in old(g.chains)
    {
      hide Flatten, ChainAt, Uses, Apart, MemInv, HeadsInv, TraceInv, RingInv, Unused;
      RingSizes(avail, availIdx, seen, used, usedIdx, ack, g);
      PublishKeeps(desc, avail, availIdx, seen, used, usedIdx, ack, g, head, ds);
      avail := avail[availIdx % VIRTIO_RING_SIZE := head];
      availIdx := (availIdx + 1) % WRAP;
      g := Published(g, head, ds);
    }

    /** The device reads the next head of the available ring. */
    method DeviceTake() returns (head: nat)
      requires Valid() && seen != availIdx
      modifies this`seen, this`held, this`g
      ensures Valid() && old(g.pend) != [] && head == old(g.pend)[0]
      ensures g == Taken(old(g))
    {
      hide Flatten, ChainAt, Uses, Apart, MemInv, HeadsInv, TraceInv, RingInv, Unused;
      RingSizes(avail, availIdx, seen, used, usedIdx, ack, g);
      TakeKeeps(avail, availIdx, seen, used, usedIdx, ack, g);
      head := avail[seen % VIRTIO_RING_SIZE];
      seen := (seen + 1) % WRAP;
      held := held + {head};
      g := Taken(g);
    }

    /** The device returns any chain that it holds. */
    method DeviceReturn(head: nat)
      requires Valid() && head in held
      modifies this`used, this`usedIdx, this`held, this`g
      ensures Valid() && head in old(g.chains)
      ensures g == Returned(old(g), head)
    {
      hide Flatten, ChainAt, Uses, Apart, MemInv, HeadsInv, TraceInv, RingInv, Unused;
      RingSizes(avail, availIdx, seen, used, usedIdx, ack, g);
      ReturnKeeps(avail, availIdx, seen, used, usedIdx, ack, g, head);
      used := used[usedIdx % VIRTIO_RING_SIZE := head];
      usedIdx := (usedIdx + 1) % WRAP;
      held := held - {head};
      g := Returned(g, head);
    }

    /** `virtio_send_command_1` */
    method SendCommand1(response: Desc) returns (ok: bool)
      requires Valid() && response.flags % 2 == 0
      modifies this
      ensures Valid() && ack == old(ack) && SendSpec(old(desc), old(idx), old(g), desc, idx, g, [response], ok)
    {
      hide Flatten, Uses, Apart, MemInv, HeadsInv, TraceInv, RingInv, Unused, FreeFrom, Wrote, ChainAt, Linked, Written,
        Carried, Carries;
      var head := idx;
      ghost var m, ds := desc, [response];
      SlotFacts(head);
      FreeSteps(desc, idx, 1);
      WroteSteps(desc, idx, ds);
      LinkedAt(head, ds, 0);
      ok := DescNew(response, VRING_DESC_F_WRITE);
      if !ok {
        return;
      }
      WroteWhole(m, g.chains, head, ds);
      LinkedCarried(head, ds);
      AvailNew(head, Linked(head, ds));
    }

    /** `virtio_send_command_2` */
    method SendCommand2(request: Desc, response: Desc) returns (ok: bool)
      requires Valid() && request.flags % 2 == 0 && response.flags % 2 == 0
      modifies this
      ensures Valid() && ack == old(ack) && SendSpec(old(desc), old(idx), old(g), desc, idx, g, [request, response], ok)
    {
      hide Flatten, Uses, Apart, MemInv, HeadsInv, TraceInv, RingInv, Unused, FreeFrom, Wrote, ChainAt, Linked, Written,
        Carried, Carries;
      var head := idx;
      ghost var m, ds := desc, [request, response];
      SlotFacts(head);
      FreeSteps(desc, idx, 2);
      WroteSteps(desc, idx, ds);
      LinkedAt(head, ds, 0);
      LinkedAt(head, ds, 1);
      ok := DescNew(request, VRING_DESC_F_NEXT);
      if !ok {
        return;
      }
      ok := DescNew(response, VRING_DESC_F_WRITE);
      if !ok {
        return;
      }
      WroteWhole(m, g.chains, head, ds);
      LinkedCarried(head, ds);
      AvailNew(head, Linked(head, ds));
    }

    /** `virtio_send_command_3` */
    method SendCommand3(request1: Desc, request2: Desc, response: Desc) returns (ok: bool)
      requires Valid() && request1.flags % 2 == 0 && request2.flags % 2 == 0 && response.flags % 2 == 0
      modifies this
      ensures Valid() && ack == old(ack)
        && SendSpec(old(desc), old(idx), old(g), desc, idx, g, [request1, request2, response], ok)
    {
      hide Flatten, Uses, Apart, MemInv, HeadsInv, TraceInv, RingInv, Unused, FreeFrom, Wrote, ChainAt, Linked, Written,
        Carried, Carries;
      var head := idx;
      ghost var m, ds := desc, [request1, request2, response];
      SlotFacts(head);
      FreeSteps(desc, idx, 3);
      WroteSteps(desc, idx, ds);
      LinkedAt(head, ds, 0);
      LinkedAt(head, ds, 1);
      LinkedAt(head, ds, 2);
      ok := DescNew(request1, VRING_DESC_F_NEXT);
      if !ok {
        return;
      }
      ok := DescNew(request2, VRING_DESC_F_NEXT);
      if !ok {
        return;
      }
      ok := DescNew(response, VRING_DESC_F_WRITE);
      if !ok {
        return;
      }
      WroteWhole(m, g.chains, head, ds);
      LinkedCarried(head, ds);
      AvailNew(head, Linked(head, ds));
    }

    ghost function Shot(): Snap
      reads this
    {
      Snap(desc, idx, g)
    }

    /** Something that happens while the driver is inside a callback. */
    method Act(e: Event)
      requires Valid() && LegalEvent(e)
      modifies this
      ensures Valid() && Grew(old(g), g) && Lasting(old(desc), old(idx), old(g), desc, idx, g)
      ensures Acted(e, old(Shot()), Shot())
    {
      hide Flatten, ChainAt, Uses, Apart, MemInv, HeadsInv, TraceInv, RingInv, Unused, Linked, Grew, SendSpec, Lasting,
        Sent;
      ghost var h := g;
      TakePending(avail, availIdx, seen, used, usedIdx, ack, g);
      FlightIn(g);
      GrewSelf(h);
      LastingSame(desc, idx, h, h);
      match e
      case Send1(d) =>
        ghost var m, i := desc, idx;
        var ok := SendCommand1(d);
        SendGrew(m, i, h, desc, idx, g, [d], ok);
        SendLasting(m, i, h, desc, idx, g, [d], ok);
        SentIs(m, i, h, desc, idx, g, [d], ok);
      case Send2(c, d) =>
        ghost var m, i := desc, idx;
        var ok := SendCommand2(c, d);
        SendGrew(m, i, h, desc, idx, g, [c, d], ok);
        SendLasting(m, i, h, desc, idx, g, [c, d], ok);
        SentIs(m, i, h, desc, idx, g, [c, d], ok);
      case Send3(b, c, d) =>
        ghost var m, i := desc, idx;
        var ok := SendCommand3(b, c, d);
        SendGrew(m, i, h, desc, idx, g, [b, c, d], ok);
        SendLasting(m, i, h, desc, idx, g, [b, c, d], ok);
        SentIs(m, i, h, desc, idx, g, [b, c, d], ok);
      case Take =>
        if seen != availIdx {
          var head := DeviceTake();
          TakeGrew(h);
          LastingSame(desc, idx, h, g);
        }
      case Return(head) =>
        if head in held {
          DeviceReturn(head);
          ReturnGrew(h, head);
          LastingSame(desc, idx, h, g);
        }
    }

    /** All that happens during one callback. */
    method ActAll(es: seq<Event>) returns (ghost snaps: seq<Snap>)
      requires Valid() && forall e | e in es :: LegalEvent(e)
      modifies this
      ensures Valid() && Grew(old(g), g) && Lasting(old(desc), old(idx), old(g), desc, idx, g)
      ensures es == [] ==> g == old(g)
      ensures Told(Dids(es), snaps) && |snaps| == |es| + 1 && snaps[0] == old(Shot()) && snaps[|es|] == Shot()
    {
      hide Flatten, ChainAt, Uses, Apart, MemInv, HeadsInv, TraceInv, RingInv, Unused, Linked, Grew, Lasting, Told,
        Dids, Acted;
      GrewSelf(g);
      LastingSame(desc, idx, g, g);
      snaps := [Shot()];
      DidsNone(snaps);
      assert es[..0] == [];
      for i := 0 to |es|
        invariant Told(Dids(es[..i]), snaps) && |snaps| == i + 1 && snaps[0] == old(Shot()) && snaps[i] == Shot()
        invariant Valid() && Grew(old(g), g) && (i == 0 ==> g == old(g))
          && Lasting(old(desc), old(idx), old(g), desc, idx, g)
      {
        ghost var h, m, j := g, desc, idx;
        Act(es[i]);
        GrewTrans(old(g), h, g);
        LastingTrans(old(desc), old(idx), old(g), m, j, h, desc, idx, g);
        DidsStep(es, i, snaps, Shot());
        snaps := snaps + [Shot()];
      }
      assert es[..|es|] == es;
    }

    /**
     `virtio_device_irq_handler`.  During the `k`th call of `free_desc` the events `script[k]` take
     place: the callback may send, and the device may take and return chains.  `moves` and `snaps` tell
     the run, in which `calls'` descriptors were handed back.
     */
    method IrqHandler(script: seq<seq<Event>>)
      returns (ghost calls': nat, ghost moves: seq<Move>, ghost snaps: seq<Snap>)
      requires Valid() && !g.busy && forall es, e | es in script && e in es :: LegalEvent(e)
      modifies this
      ensures Valid() && !g.busy && g.done == []
      ensures old(g.sent) <= g.sent && old(g.history) <= g.history
      ensures g.freed == Flatten(g.sent, g.history) && Lasting(old(desc), old(idx), old(g), desc, idx, g)
      ensures Told(moves, snaps) && |snaps| == |moves| + 1 && snaps[0] == old(Shot()) && snaps[|moves|] == Shot()
      ensures Strip(moves) == Frees(script, 0, calls')
    {
      hide Flatten, ChainAt, Uses, Apart, MemInv, HeadsInv, TraceInv, RingInv, Unused, Linked, Lasting, Told, Strip,
        Frees;
      var calls: nat := 0;
      moves, snaps := [], [Shot()];
      StoryStart(script, snaps);
      LastingSame(desc, idx, g, g);
      UsedPending(avail, availIdx, seen, used, usedIdx, ack, g);
      while ack != usedIdx
        invariant Valid() && !g.busy
        invariant old(g.sent) <= g.sent && old(g.history) <= g.history
          && Lasting(old(desc), old(idx), old(g), desc, idx, g)
        invariant ack != usedIdx <==> g.done != []
        invariant Told(moves, snaps) && |snaps| == |moves| + 1 && snaps[0] == old(Shot()) && snaps[|moves|] == Shot()
        invariant Strip(moves) == Frees(script, 0, calls)
        decreases if calls < |script| then |script| - calls else 0, |g.done|
      {
        ghost var h, m, j := g, desc, idx;
        ghost var before, ms, ss := calls, [], [];
        calls, ms, ss := HandBack(script, calls);
        ToldJoin(moves, snaps, ms, ss);
        StripJoin(moves, ms);
        FreesJoin(script, 0, before, calls);
        moves, snaps := moves + ms, snaps + ss[1..];
        LastingTrans(old(desc), old(idx), old(g), m, j, h, desc, idx, g);
        UsedPending(avail, availIdx, seen, used, usedIdx, ack, g);
      }
      AllHandedBack(g);
      calls' := calls;
    }

    /** One descriptor is freed and handed to the callback, during which the events `es` take place. */
    method FreeOne(slot: nat, es: seq<Event>) returns (more: bool, slot': nat, ghost ss: seq<Snap>)
      requires Valid() && g.busy && g.cur == Some(slot) && forall e | e in es :: LegalEvent(e)
      modifies this
      ensures Valid() && g.busy && (if more then g.cur == Some(slot') else g.cur == None)
      ensures old(g.sent) <= g.sent && old(g.history) <= g.history && Lasting(old(desc), old(idx), old(g), desc, idx, g)
      ensures (es == [] ==> g.done == old(g.done)) && |Rest(g)| < |Rest(old(g))|
      ensures Told([Free] + Dids(es), ss) && |ss| == |es| + 2 && ss[0] == old(Shot()) && ss[|es| + 1] == Shot()
    {
      hide Flatten, ChainAt, Uses, Apart, MemInv, HeadsInv, TraceInv, RingInv, Unused, Linked, Lasting, Told, Dids,
        Made;
      ss := [Shot()];
      StoryStart([], ss);
      CurAt(desc, g);
      FreeLasting(desc, idx, g);
      MadeFree(desc, idx, g);
      FreeKeeps(desc, avail, availIdx, seen, used, usedIdx, ack, g);
      var temp := desc[slot];
      desc := desc[slot := EMPTY];
      g := Freeing(g);
      ToldMore([], ss, Free, Shot());
      ss := ss + [Shot()];
      assert [] + [Free] == [Free];
      ghost var h, m, j := g, desc, idx;
      ghost var ts := ActAll(es);
      ToldJoin([Free], ss, Dids(es), ts);
      ss := ss + ts[1..];
      GrewFacts(h, g);
      LastingTrans(old(desc), old(idx), old(g), m, j, h, desc, idx, g);
      more, slot' := HasNext(temp), temp.next;
    }

    /** One round of the handler's outer loop: the next returned chain is handed back. */
    method HandBack(script: seq<seq<Event>>, calls: nat)
      returns (calls': nat, ghost moves: seq<Move>, ghost snaps: seq<Snap>)
      requires Valid() && !g.busy && ack != usedIdx && g.done != [] && forall es, e | es in script
        && e in es :: LegalEvent(e)
      modifies this
      ensures Valid() && !g.busy && calls' > calls
      ensures old(g.sent) <= g.sent && old(g.history) <= g.history && Lasting(old(desc), old(idx), old(g), desc, idx, g)
      ensures calls >= |script| ==> |g.done| < |old(g.done)|
      ensures Told(moves, snaps) && |snaps| == |moves| + 1 && snaps[0] == old(Shot()) && snaps[|moves|] == Shot()
      ensures Strip(moves) == Frees(script, calls, calls')
    {
      hide Flatten, ChainAt, Uses, Apart, MemInv, HeadsInv, TraceInv, RingInv, Unused, Linked, Lasting, Told, Strip,
        Frees, Dids, Made;
      moves, snaps := [], [Shot()];
      StoryStart(script, snaps);
      RingSizes(avail, availIdx, seen, used, usedIdx, ack, g);
      ReadKeeps(desc, avail, availIdx, seen, used, usedIdx, ack, g);
      var slot := used[ack % VIRTIO_RING_SIZE];
      LastingSame(desc, idx, g, Reading(g));
      g := Reading(g);
      MadeRead(snaps[0]);
      ToldMore(moves, snaps, Read, Shot());
      StripMore(moves, Read);
      moves, snaps := moves + [Read], snaps + [Shot()];
      FreesNone(script, calls);
      calls' := calls;
      var more := true;
      while more
        invariant Valid() && g.busy && (if more then g.cur == Some(slot) else g.cur == None)
        invariant old(g.sent) <= g.sent && old(g.history) <= g.history
          && Lasting(old(desc), old(idx), old(g), desc, idx, g)
        invariant calls' >= calls && (more || calls' > calls)
        invariant calls >= |script| ==> |g.done| < |old(g.done)|
        invariant Told(moves, snaps) && |snaps| == |moves| + 1 && snaps[0] == old(Shot()) && snaps[|moves|] == Shot()
        invariant Strip(moves) == Frees(script, calls, calls')
        decreases |Rest(g)|, more
      {
        ghost var h, m, j := g, desc, idx;
        var es := if calls' < |script| then script[calls'] else [];
        ghost var ss;
        more, slot, ss := FreeOne(slot, es);
        LastingTrans(old(desc), old(idx), old(g), m, j, h, desc, idx, g);
        ToldJoin(moves, snaps, [Free] + Dids(es), ss);
        StripFree(moves, es);
        FreesStep(script, calls, calls');
        moves, snaps := moves + ([Free] + Dids(es)), snaps + ss[1..];
        calls' := calls' + 1;
      }
      AckKeeps(avail, availIdx, seen, used, usedIdx, ack, g);
      ack := (ack + 1) % WRAP;
      LastingSame(desc, idx, g, g.(busy := false));
      LastingTrans(old(desc), old(idx), old(g), desc, idx, g, desc, idx, g.(busy := false));
      g := g.(busy := false);
      MadeAck(snaps[|moves|]);
      ToldMore(moves, snaps, Ack, Shot());
      StripMore(moves, Ack);
      moves, snaps := moves + [Ack], snaps + [Shot()];
    }
  }

  // ---------------------------------------------------------------- the story of a run

  /** The driver's memory with the story so far */
  datatype Snap = Snap(desc: seq<Desc>, idx: nat, g: Trace)

  /** The handler reads an entry, hands a descriptor to the callback, moves on, or something else happens. */
  datatype Move = Read | Free | Ack | Did(e: Event)

  /** A request was sent if there was room, and otherwise failed as `SendSpec` says. */
  ghost predicate Sent(s: Snap, s': Snap, ds: seq<Desc>) {
    && |s.desc| == VIRTIO_RING_SIZE
    && SendSpec(s.desc, s.idx, s.g, s'.desc, s'.idx, s'.g, ds, FreeFrom(s.desc, s.idx, 0, |ds|) == |ds|)
  }

  ghost predicate Acted(e: Event, s: Snap, s': Snap) {
    match e
    case Send1(d) => Sent(s, s', [d])
    case Send2(c, d) => Sent(s, s', [c, d])
    case Send3(b, c, d) => Sent(s, s', [b, c, d])
    case Take => s' == s.(g := if s.g.pend != [] then Taken(s.g) else s.g)
    case Return(head) => s' == s.(g := if head in s.g.flight && head in s.g.chains then Returned(s.g, head) else s.g)
  }

  ghost predicate Made(m: Move, s: Snap, s': Snap) {
    match m
    case Read => s.g.done != [] && s' == s.(g := Reading(s.g))
    case Free =>
      && s.g.cur.Some? && s.g.cur.value in s.g.chains && s.g.chains[s.g.cur.value].descs != []
      && s.g.cur.value < |s.desc| && s' == Snap(s.desc[s.g.cur.value := EMPTY], s.idx, Freeing(s.g))
    case Ack => s' == s.(g := s.g.(busy := false))
    case Did(e) => Acted(e, s, s')
  }

  ghost predicate Told(moves: seq<Move>, snaps: seq<Snap>) {
    |snaps| == |moves| + 1 && forall i | 0 <= i < |moves| :: Made(moves[i], snaps[i], snaps[i + 1])
  }

  ghost function Dids(es: seq<Event>): (ms: seq<Move>)
    ensures |ms| == |es|
  {
    seq(|es|, i requires 0 <= i < |es| => Did(es[i]))
  }

  /** From the `a`th call of the callback to the `b`th: a descriptor is handed back, then its events happen. */
  ghost function Frees(script: seq<seq<Event>>, a: nat, b: nat): seq<Move>
    requires a <= b
    decreases b
  {
    if a == b then [] else Frees(script, a, b - 1) + ([Free] + Dids(if b <= |script| then script[b - 1] else []))
  }

  /** The moves without the reading of the used ring */
  ghost function Strip(moves: seq<Move>): seq<Move> {
    if moves == [] then []
    else
      var n := |moves| - 1;
      Strip(moves[..n]) + if moves[n].Read? || moves[n].Ack? then [] else [moves[n]]
  }

  lemma {:induction false} StoryStart(script: seq<seq<Event>>, snaps: seq<Snap>)
    requires |snaps| == 1
    ensures Told([], snaps) && Strip([]) == [] == Frees(script, 0, 0)
  {
  }

  lemma {:induction false} FreesNone(script: seq<seq<Event>>, a: nat)
    ensures Frees(script, a, a) == []
  {
  }

  lemma {:induction false} FreesStep(script: seq<seq<Event>>, a: nat, b: nat)
    requires a <= b
    ensures Frees(script, a, b + 1) == Frees(script, a, b) + ([Free] + Dids(if b < |script| then script[b] else []))
  {
    hide Dids;
  }

  lemma {:induction false} FreesJoin(script: seq<seq<Event>>, a: nat, b: nat, c: nat)
    requires a <= b <= c
    ensures Frees(script, a, c) == Frees(script, a, b) + Frees(script, b, c)
    decreases c
  {
    hide Dids;
    if b < c {
      FreesJoin(script, a, b, c - 1);
    }
  }

  lemma {:induction false} StripMore(moves: seq<Move>, m: Move)
    ensures Strip(moves + [m]) == Strip(moves) + if m.Read? || m.Ack? then [] else [m]
  {
    assert (moves + [m])[..|moves|] == moves;
  }

  lemma {:induction false} StripJoin(a: seq<Move>, b: seq<Move>)
    ensures Strip(a + b) == Strip(a) + Strip(b)
    decreases |b|
  {
    if b == [] {
      assert a + b == a;
    } else {
      var n := |b| - 1;
      assert (a + b)[..|a + b| - 1] == a + b[..n];
      StripJoin(a, b[..n]);
    }
  }

  lemma {:induction false} StripDids(es: seq<Event>)
    ensures Strip(Dids(es)) == Dids(es)
  {
    if es != [] {
      var n := |es| - 1;
      StripDids(es[..n]);
      assert Dids(es)[..n] == Dids(es[..n]);
      assert Dids(es) == Dids(es[..n]) + [Did(es[n])];
    }
  }

  lemma {:induction false} StripFree(moves: seq<Move>, es: seq<Event>)
    ensures Strip(moves + ([Free] + Dids(es))) == Strip(moves) + ([Free] + Dids(es))
  {
    hide Strip, Dids;
    StripJoin(moves, [Free] + Dids(es));
    StripJoin([Free], Dids(es));
    StripMore([], Free);
    StoryNone();
    StripDids(es);
    assert [] + [Free] == [Free];
  }

  lemma {:induction false} StoryNone()
    ensures Strip([]) == []
  {
  }

  lemma {:induction false} DidsNone(snaps: seq<Snap>)
    requires |snaps| == 1
    ensures Told(Dids([]), snaps)
  {
  }

  lemma {:induction false} DidsStep(es: seq<Event>, i: nat, snaps: seq<Snap>, s: Snap)
    requires i < |es| && Told(Dids(es[..i]), snaps) && |snaps| == i + 1 && Acted(es[i], snaps[i], s)
    ensures Told(Dids(es[..i + 1]), snaps + [s])
  {
    hide Told, Acted;
    assert Dids(es[..i + 1]) == Dids(es[..i]) + [Did(es[i])];
    ToldMore(Dids(es[..i]), snaps, Did(es[i]), s);
  }

  lemma {:induction false} MadeRead(s: Snap)
    requires s.g.done != []
    ensures Made(Read, s, Snap(s.desc, s.idx, Reading(s.g)))
  {
  }

  lemma {:induction false} MadeFree(desc: seq<Desc>, idx: nat, g: Trace)
    requires g.cur.Some? && g.cur.value in g.chains && g.chains[g.cur.value].descs != [] && g.cur.value < |desc|
    ensures Made(Free, Snap(desc, idx, g), Snap(desc[g.cur.value := EMPTY], idx, Freeing(g)))
  {
  }

  lemma {:induction false} MadeAck(s: Snap)
    ensures Made(Ack, s, Snap(s.desc, s.idx, s.g.(busy := false)))
  {
  }

  lemma {:induction false} ToldMore(moves: seq<Move>, snaps: seq<Snap>, m: Move, s: Snap)
    requires Told(moves, snaps) && |snaps| == |moves| + 1 && Made(m, snaps[|moves|], s)
    ensures Told(moves + [m], snaps + [s])
  {
    hide Made;
  }

  lemma {:induction false} ToldJoin(a: seq<Move>, s: seq<Snap>, b: seq<Move>, t: seq<Snap>)
    requires Told(a, s) && Told(b, t) && |s| == |a| + 1 && |t| == |b| + 1 && s[|a|] == t[0]
    ensures Told(a + b, s + t[1..]) && (s + t[1..])[|a + b|] == t[|b|] && (s + t[1..])[0] == s[0]
  {
    hide Made;
    var m, r := a + b, s + t[1..];
    forall i | 0 <= i < |m| ensures Made(m[i], r[i], r[i + 1]) {
      if i >= |a| {
        var j := i - |a|;
        assert m[i] == b[j] && r[i + 1] == t[j + 1] && r[i] == t[j];
      }
    }
  }

  lemma {:induction false} SentIs(m: seq<Desc>, i: nat, h: Trace, desc: seq<Desc>, idx: nat, g: Trace, ds: seq<Desc>,
                                  ok: bool)
    requires SendSpec(m, i, h, desc, idx, g, ds, ok)
    ensures Sent(Snap(m, i, h), Snap(desc, idx, g), ds)
  {
    hide Linked, Wrote, FreeFrom, Carried;
  }

  lemma {:induction false} FlightIn(g: Trace)
    requires HeadsInv(g)
    ensures forall h | h in g.flight :: h in g.chains
  {
  }

  /** The device's own comparison tells whether published chains are unread. */
  lemma {:induction false} TakePending(avail: seq<nat>, availIdx: nat, seen: nat, used: seq<nat>, usedIdx: nat,
                                       ack: nat, g: Trace)
    requires HeadsInv(g) && TraceInv(g) && RingInv(avail, availIdx, seen, used, usedIdx, ack, g)
    ensures seen != availIdx <==> g.pend != []
  {
    hide HeadsInv, TraceInv, Unread;
    PendFew(g);
    WrapEqual(|g.sent|, |g.pend|);
  }

  lemma {:induction false} PendFew(g: Trace)
    requires HeadsInv(g)
    ensures |g.pend| <= VIRTIO_RING_SIZE
  {
    hide NoDup;
    forall x | x in g.pend ensures x < VIRTIO_RING_SIZE { }
    Pigeonhole(g.pend, VIRTIO_RING_SIZE);
  }

  lemma {:induction false} WrapEqual(n: nat, k: nat)
    requires k <= VIRTIO_RING_SIZE && k <= n
    ensures n % WRAP == (n - k) % WRAP <==> k == 0
  {
    var m := n - k;
    var q, r := m / WRAP, m % WRAP;
    assert m == q * WRAP + r;
    assert n == q * WRAP + (r + k);
  }

  /** What can happen during a callback; descriptors come without the chaining flag. */
  datatype Event =
    | Send1(response: Desc)
    | Send2(request: Desc, response: Desc)
    | Send3(request1: Desc, request2: Desc, response: Desc)
    | Take
    | Return(head: nat)

  ghost predicate LegalEvent(e: Event) {
    match e
    case Send1(d) => d.flags % 2 == 0
    case Send2(c, d) => c.flags % 2 == 0 && d.flags % 2 == 0
    case Send3(b, c, d) => b.flags % 2 == 0 && c.flags % 2 == 0 && d.flags % 2 == 0
    case _ => true
  }

  /** How many slots from `idx` on are free, counted from `i` up to `n` */
  ghost function FreeFrom(desc: seq<Desc>, idx: nat, i: nat, n: nat): (r: nat)
    requires |desc| == VIRTIO_RING_SIZE && i <= n
    ensures i <= r <= n && (forall j | i <= j < r :: desc[Slot(idx, j)].flags == 0)
      && (r < n ==> desc[Slot(idx, r)].flags != 0)
    decreases n - i
  {
    if i == n || desc[Slot(idx, i)].flags != 0 then i else FreeFrom(desc, idx, i + 1, n)
  }

  /** The table with the first `n` descriptors of a request written */
  ghost function Wrote(desc: seq<Desc>, idx: nat, ds: seq<Desc>, n: nat): (r: seq<Desc>)
    requires |desc| == VIRTIO_RING_SIZE && n <= |ds| && Plain(ds)
    ensures |r| == |desc|
  {
    if n == 0 then desc else Wrote(desc, idx, ds, n - 1)[Slot(idx, n - 1) := Linked(idx, ds)[n - 1]]
  }

  /**
   A send writes into the free slots it comes to and moves on by their number.  It succeeds exactly
   when they are enough; it then publishes the chain.  Otherwise it publishes nothing and what it has
   written stays.
   */
  ghost predicate SendSpec(desc: seq<Desc>, idx: nat, g: Trace, desc': seq<Desc>, idx': nat, g': Trace, ds: seq<Desc>,
                           ok: bool) {
    && |desc| == VIRTIO_RING_SIZE && Plain(ds)
    && var n := FreeFrom(desc, idx, 0, |ds|);
    && (ok <==> n == |ds|) && desc' == Wrote(desc, idx, ds, n) && idx' == Slot(idx, n)
    && g' == (if ok then Published(g, idx, Linked(idx, ds)) else g)
    && (ok ==> idx !in g.chains && Carried(Linked(idx, ds), idx, ds))
  }

  // ---------------------------------------------------------------- slots that are lost

  /** A slot that is occupied but belongs to no chain; nothing ever frees it. */
  ghost predicate Orphan(desc: seq<Desc>, chains: map<nat, Chain>, s: nat) {
    s < |desc| && desc[s].flags != 0 && Unused(chains, s)
  }

  /** How far the next slot is from `s` */
  ghost function Ahead(idx: nat, s: nat): int {
    if s >= idx then s - idx else s + VIRTIO_RING_SIZE - idx
  }

  /**
   Lost slots stay lost as they are, and the next slot never moves past one: each request sent
   brings it nearer, so that no more can be sent than there are slots up to it.
   */
  ghost predicate Lasting(desc: seq<Desc>, idx: nat, g: Trace, desc': seq<Desc>, idx': nat, g': Trace) {
    forall s: nat | Orphan(desc, g.chains, s) ::
      && Orphan(desc', g'.chains, s) && desc'[s] == desc[s]
      && |g'.sent| - |g.sent| + Ahead(idx', s) <= Ahead(idx, s)
  }

  lemma {:induction false} LastingSame(desc: seq<Desc>, idx: nat, g: Trace, g': Trace)
    requires g'.chains == g.chains && g'.sent == g.sent
    ensures Lasting(desc, idx, g, desc, idx, g')
  {
    hide Unused;
  }

  lemma {:induction false} LastingTrans(d: seq<Desc>, i: nat, g: Trace, d1: seq<Desc>, i1: nat, g1: Trace,
                                        d2: seq<Desc>, i2: nat, g2: Trace)
    requires Lasting(d, i, g, d1, i1, g1) && Lasting(d1, i1, g1, d2, i2, g2)
    ensures Lasting(d, i, g, d2, i2, g2)
  {
    hide Orphan, Ahead;
  }

  lemma {:induction false} WroteOthers(desc: seq<Desc>, idx: nat, ds: seq<Desc>, n: nat, s: nat)
    requires |desc| == VIRTIO_RING_SIZE && n <= |ds| && Plain(ds) && s < VIRTIO_RING_SIZE && !Uses(idx, n, s)
    ensures Wrote(desc, idx, ds, n)[s] == desc[s]
  {
    if n > 0 {
      assert s != Slot(idx, n - 1);
      assert !Uses(idx, n - 1, s);
      WroteOthers(desc, idx, ds, n - 1, s);
    }
  }

  lemma {:induction false} WroteAt(desc: seq<Desc>, idx: nat, ds: seq<Desc>, n: nat, i: nat)
    requires |desc| == VIRTIO_RING_SIZE && i < n <= |ds| <= 3 && Plain(ds)
    ensures Wrote(desc, idx, ds, n)[Slot(idx, i)] == Linked(idx, ds)[i] && Linked(idx, ds)[i].flags != 0
  {
    if i < n - 1 {
      WroteAt(desc, idx, ds, n - 1, i);
    }
  }

  /** A slot in the way is passed by no send. */
  lemma {:induction false} NotPassed(desc: seq<Desc>, idx: nat, n: nat, s: nat)
    requires |desc| == VIRTIO_RING_SIZE && idx < VIRTIO_RING_SIZE && s < VIRTIO_RING_SIZE && n <= 3
      && desc[s].flags != 0
    requires forall j | 0 <= j < n :: desc[Slot(idx, j)].flags == 0
    ensures !Uses(idx, n, s) && Ahead(Slot(idx, n), s) == Ahead(idx, s) - n
  {
    if n > 0 {
      NotPassed(desc, idx, n - 1, s);
      assert s != Slot(idx, n - 1);
    }
  }

  lemma {:induction false} SendLasting(desc: seq<Desc>, idx: nat, g: Trace, desc': seq<Desc>, idx': nat, g': Trace,
                                       ds: seq<Desc>, ok: bool)
    requires |desc| == VIRTIO_RING_SIZE && idx < VIRTIO_RING_SIZE && 0 < |ds| <= 3 && Plain(ds)
    requires SendSpec(desc, idx, g, desc', idx', g', ds, ok)
    ensures Lasting(desc, idx, g, desc', idx', g')
  {
    hide Wrote, Linked, Uses;
    var n := FreeFrom(desc, idx, 0, |ds|);
    forall s: nat | Orphan(desc, g.chains, s)
      ensures Orphan(desc', g'.chains, s) && desc'[s] == desc[s]
        && |g'.sent| - |g.sent| + Ahead(idx', s) <= Ahead(idx, s)
    {
      NotPassed(desc, idx, n, s);
      WroteOthers(desc, idx, ds, n, s);
    }
  }

  /** What a failed send has written is lost. */
  lemma {:induction false} FailureLoses(desc: seq<Desc>, idx: nat, g: Trace, desc': seq<Desc>, idx': nat, g': Trace,
                                        ds: seq<Desc>, ok: bool, i: nat)
    requires MemInv(desc, g.chains) && idx < VIRTIO_RING_SIZE && 0 < |ds| <= 3 && Plain(ds)
    requires SendSpec(desc, idx, g, desc', idx', g', ds, ok) && !ok && i < FreeFrom(desc, idx, 0, |ds|)
    ensures Orphan(desc', g'.chains, Slot(idx, i)) && Ahead(idx', Slot(idx, i)) < VIRTIO_RING_SIZE
  {
    hide Wrote, Linked, Apart;
    var n := FreeFrom(desc, idx, 0, |ds|);
    WroteAt(desc, idx, ds, n, i);
    FreeUnused(desc, g.chains, Slot(idx, i));
  }

  /** From any state to any later one, at most as many requests are sent as slots lie before a lost one. */
  lemma {:induction false} SentBefore(desc: seq<Desc>, idx: nat, g: Trace, desc': seq<Desc>, idx': nat, g': Trace,
                                      s: nat)
    requires Lasting(desc, idx, g, desc', idx', g') && |desc| == VIRTIO_RING_SIZE && idx' < VIRTIO_RING_SIZE
    requires Orphan(desc, g.chains, s)
    ensures |g'.sent| <= |g.sent| + Ahead(idx, s)
  {
    hide Unused;
    assert Ahead(idx', s) >= 0;
  }

  /** Once the next slot is a lost one, it never moves again and every later send fails. */
  lemma {:induction false} Jammed(desc: seq<Desc>, idx: nat, g: Trace, desc': seq<Desc>, idx': nat, g': Trace, n: nat)
    requires Lasting(desc, idx, g, desc', idx', g') && g.sent <= g'.sent
    requires |desc| == |desc'| == VIRTIO_RING_SIZE && idx < VIRTIO_RING_SIZE && idx' < VIRTIO_RING_SIZE
    requires Orphan(desc, g.chains, idx)
    ensures idx' == idx && g'.sent == g.sent && Orphan(desc', g'.chains, idx') && FreeFrom(desc', idx', 0, n) == 0
  {
    hide Unused;
    assert Slot(idx, 0) == idx;
  }

  /** A send that fails after writing leaves room for at most 127 more requests, in any run that follows. */
  lemma {:induction false} FailureBounds(desc: seq<Desc>, idx: nat, g: Trace, d1: seq<Desc>, i1: nat, g1: Trace,
                                         ds: seq<Desc>,
                                         d2: seq<Desc>, i2: nat, g2: Trace)
    requires MemInv(desc, g.chains) && |desc| == VIRTIO_RING_SIZE && idx < VIRTIO_RING_SIZE && i2 < VIRTIO_RING_SIZE
    requires 0 < |ds| <= 3 && Plain(ds) && SendSpec(desc, idx, g, d1, i1, g1, ds, false) && desc[idx].flags == 0
    requires Lasting(d1, i1, g1, d2, i2, g2)
    ensures |g2.sent| < |g1.sent| + VIRTIO_RING_SIZE
  {
    hide Lasting, Orphan, MemInv, Wrote, Linked;
    FreeSteps(desc, idx, |ds|);
    assert Slot(idx, 0) == idx;
    FailureLoses(desc, idx, g, d1, i1, g1, ds, false, 0);
    SentBefore(d1, i1, g1, d2, i2, g2, idx);
  }

  /** A send that fails midway: 127 requests of one descriptor, and then one of two. */
  method FailsMidway(d: Desc) returns (q: Queue, ok: bool)
    requires d.flags % 2 == 0
    ensures fresh(q) && q.Valid() && !ok && Orphan(q.desc, q.g.chains, 127)
  {
    hide MemInv, HeadsInv, TraceInv, RingInv, Unused, FreeFrom, Wrote, Linked;
    q := new Queue();
    for i: nat := 0 to 127
      invariant fresh(q) && q.Valid() && q.idx == i
      invariant forall s | 0 <= s < i :: q.desc[s].flags != 0
      invariant forall s | i <= s < VIRTIO_RING_SIZE :: q.desc[s].flags == 0
    {
      ghost var desc := q.desc;
      SlotFacts(i);
      FreeSteps(desc, i, 1);
      WroteSteps(desc, i, [d]);
      WroteAt(desc, i, [d], 1, 0);
      var sent := q.SendCommand1(d);
    }
    ghost var desc, g := q.desc, q.g;
    SlotFacts(127);
    FreeSteps(desc, 127, 2);
    ok := q.SendCommand2(d, d);
    FailureLoses(desc, 127, g, q.desc, q.idx, q.g, [d, d], ok, 0);
  }

  lemma {:induction false} FreeUnused(desc: seq<Desc>, chains: map<nat, Chain>, s: nat)
    requires MemInv(desc, chains) && s < |desc| && desc[s].flags == 0
    ensures Unused(chains, s)
  {
    hide Apart;
    forall h | h in chains ensures !Uses(h, |chains[h].descs|, s) {
      assert ChainAt(desc, h, chains[h].descs);
    }
  }

  lemma {:induction false} FreeLasting(desc: seq<Desc>, idx: nat, g: Trace)
    requires g.cur.Some? && g.cur.value in g.chains && g.cur.value < |desc| == VIRTIO_RING_SIZE
      && g.chains[g.cur.value].descs != []
    ensures Lasting(desc, idx, g, desc[g.cur.value := EMPTY], idx, Freeing(g))
  {
    hide Uses;
    var c := g.cur.value;
    forall s: nat | Orphan(desc, g.chains, s) ensures s != c && Unused(Dropped(g.chains, c), s) {
      DroppedUnused(g.chains, c, s);
    }
  }

  lemma {:induction false} DroppedUnused(chains: map<nat, Chain>, c: nat, s: nat)
    requires c in chains && c < VIRTIO_RING_SIZE && chains[c].descs != [] && Unused(chains, s)
    ensures s != c && Unused(Dropped(chains, c), s)
  {
    var n := |chains[c].descs|;
    assert !Uses(c, n, s);
    assert Slot(c, 0) == c;
    if n > 1 {
      forall i | 0 <= i < n - 1 ensures s != Slot(Slot(c, 1), i) {
        assert Slot(Slot(c, 1), i) == Slot(c, i + 1);
      }
      assert !Uses(Slot(c, 1), n - 1, s);
    }
  }

  lemma {:induction false} LinkedAt(h: nat, ds: seq<Desc>, i: nat)
    requires Plain(ds) && i < |ds|
    ensures ds[i].flags % 2 == 0
    ensures Linked(h, ds)[i] == Written(ds[i], if i + 1 < |ds| then VRING_DESC_F_NEXT
      else VRING_DESC_F_WRITE, Slot(h, i))
  {
    assert ds[i] in ds;
  }

  /** What is published of a request is the request. */
  lemma {:induction false} LinkedCarried(h: nat, ds: seq<Desc>)
    requires Plain(ds)
    ensures Carried(Linked(h, ds), h, ds)
  {
    hide Linked, Written;
    forall i | 0 <= i < |ds|
      ensures Carries(Linked(h, ds)[i], ds[i], i + 1 < |ds|)
      ensures Linked(h, ds)[i].next == if i + 1 < |ds| then (h + i + 1) % VIRTIO_RING_SIZE else 0
    {
      LinkedAt(h, ds, i);
      WrittenCarries(ds[i], if i + 1 < |ds| then VRING_DESC_F_NEXT else VRING_DESC_F_WRITE, Slot(h, i));
    }
  }

  lemma {:induction false} WrittenCarries(d: Desc, flag: nat, s: nat)
    requires d.flags % 2 == 0 && (flag == VRING_DESC_F_NEXT || flag == VRING_DESC_F_WRITE)
    ensures var w := Written(d, flag, s);
      Carries(w, d, flag == VRING_DESC_F_NEXT) && w.next == if flag == VRING_DESC_F_NEXT then Slot(s, 1) else 0
  {
  }

  lemma {:induction false} WroteSteps(desc: seq<Desc>, idx: nat, ds: seq<Desc>)
    requires |desc| == VIRTIO_RING_SIZE && idx < VIRTIO_RING_SIZE && 1 <= |ds| <= 3 && Plain(ds)
    ensures Wrote(desc, idx, ds, 0) == desc
    ensures Wrote(desc, idx, ds, 1) == desc[idx := Linked(idx, ds)[0]]
    ensures |ds| >= 2 ==> Wrote(desc, idx, ds, 2) == Wrote(desc, idx, ds, 1)[Slot(idx, 1) := Linked(idx, ds)[1]]
    ensures |ds| >= 3 ==> Wrote(desc, idx, ds, 3) == Wrote(desc, idx, ds, 2)[Slot(idx, 2) := Linked(idx, ds)[2]]
  {
    hide Linked;
    assert Slot(idx, 0) == idx;
  }

  /** A request that is written whole is a chain in slots that no other uses. */
  lemma {:induction false} WroteWhole(desc: seq<Desc>, chains: map<nat, Chain>, idx: nat, ds: seq<Desc>)
    requires MemInv(desc, chains) && |desc| == VIRTIO_RING_SIZE && idx < VIRTIO_RING_SIZE && 1 <= |ds| <= 3 && Plain(ds)
    requires FreeFrom(desc, idx, 0, |ds|) == |ds|
    ensures ChainAt(Wrote(desc, idx, ds, |ds|), idx, Linked(idx, ds))
    ensures forall i | 0 <= i < |ds| :: Unused(chains, Slot(idx, i))
  {
    hide Wrote, Linked, MemInv, Unused;
    var r := Linked(idx, ds);
    forall i | 0 <= i < |ds|
      ensures Wrote(desc, idx, ds, |ds|)[Slot(idx, i)] == r[i] && r[i].flags != 0
      ensures (HasNext(r[i]) <==> i + 1 < |ds|) && (HasNext(r[i]) ==> r[i].next == Slot(idx, i + 1))
    {
      WroteAt(desc, idx, ds, |ds|, i);
      LinkedAt(idx, ds, i);
    }
    forall i | 0 <= i < |ds| ensures Unused(chains, Slot(idx, i)) {
      FreeUnused(desc, chains, Slot(idx, i));
    }
  }

  lemma {:induction false} FreeSteps(desc: seq<Desc>, idx: nat, n: nat)
    requires |desc| == VIRTIO_RING_SIZE && 1 <= n <= 3
    ensures FreeFrom(desc, idx, 0, n) ==
      if desc[Slot(idx, 0)].flags != 0 then 0
      else if n == 1 || desc[Slot(idx, 1)].flags != 0 then 1
      else if n == 2 || desc[Slot(idx, 2)].flags != 0 then 2
      else 3
  {
  }

  // ---------------------------------------------------------------- the steps as values

  ghost predicate Unused(chains: map<nat, Chain>, s: nat) {
    forall h | h in chains :: !Uses(h, |chains[h].descs|, s)
  }

  lemma {:induction false} FreeSlot(desc: seq<Desc>, chains: map<nat, Chain>, s: nat, d: Desc)
    requires MemInv(desc, chains) && s < VIRTIO_RING_SIZE && desc[s].flags == 0
    ensures Unused(chains, s) && MemInv(desc[s := d], chains)
  {
    hide Apart;
    forall h | h in chains ensures !Uses(h, |chains[h].descs|, s) && ChainAt(desc[s := d], h, chains[h].descs) {
      assert ChainAt(desc, h, chains[h].descs);
      forall i | 0 <= i < |chains[h].descs| ensures s != Slot(h, i) { }
    }
  }

  ghost function Published(g: Trace, h: nat, ds: seq<Desc>): Trace {
    g.(sent := g.sent + [ds], chains := g.chains[h := Chain(|g.sent|, ds)], pend := g.pend + [h])
  }

  lemma {:induction false} WrapSlot(n: nat)
    ensures n % WRAP % VIRTIO_RING_SIZE == n % VIRTIO_RING_SIZE
    ensures (n % WRAP + 1) % WRAP == (n + 1) % WRAP
  {
    var q, r := n / WRAP, n % WRAP;
    assert n == q * WRAP + r;
    assert n == (q * 512) * VIRTIO_RING_SIZE + r;
  }

  lemma {:induction false} SlotsDiffer(a: nat, b: nat)
    requires a < b < a + VIRTIO_RING_SIZE
    ensures a % VIRTIO_RING_SIZE != b % VIRTIO_RING_SIZE
  {
  }

  lemma {:induction false} RingSizes(avail: seq<nat>, availIdx: nat, seen: nat, used: seq<nat>, usedIdx: nat,
                                     ack: nat, g: Trace)
    requires RingInv(avail, availIdx, seen, used, usedIdx, ack, g)
    ensures |avail| == |used| == VIRTIO_RING_SIZE
  {
  }

  lemma {:induction false} FlattenMore(sent: seq<seq<Desc>>, ds: seq<Desc>, ids: seq<nat>)
    requires forall i | 0 <= i < |ids| :: ids[i] < |sent|
    ensures Flatten(sent + [ds], ids) == Flatten(sent, ids)
  {
    if ids != [] {
      FlattenMore(sent, ds, ids[..|ids| - 1]);
    }
  }

  lemma {:induction false} PublishMem(desc: seq<Desc>, chains: map<nat, Chain>, head: nat, id: nat, ds: seq<Desc>)
    requires MemInv(desc, chains) && ChainAt(desc, head, ds)
      && forall i | 0 <= i < |ds| :: Unused(chains, Slot(head, i))
    ensures head !in chains && MemInv(desc, chains[head := Chain(id, ds)])
  {
    hide ChainAt;
    assert |ds| > 0 && head < VIRTIO_RING_SIZE by { ChainHead(desc, head, ds); }
    assert Unused(chains, Slot(head, 0)) && Slot(head, 0) == head;
    NotInUse(desc, chains, head);
    var c := chains[head := Chain(id, ds)];
    forall s | Uses(head, |ds|, s) ensures Unused(chains, s) { }
  }

  lemma {:induction false} NotInUse(desc: seq<Desc>, chains: map<nat, Chain>, head: nat)
    requires MemInv(desc, chains) && Unused(chains, head)
    ensures head !in chains
  {
    hide Unused, Apart;
    if head in chains {
      ChainHead(desc, head, chains[head].descs);
      InUse(chains, head);
      assert false;
    }
  }

  lemma {:induction false} InUse(chains: map<nat, Chain>, head: nat)
    requires head in chains && head < VIRTIO_RING_SIZE && |chains[head].descs| > 0
    ensures !Unused(chains, head)
  {
    assert head == Slot(head, 0);
    assert Uses(head, |chains[head].descs|, head);
  }

  lemma {:induction false} ChainHead(desc: seq<Desc>, h: nat, ds: seq<Desc>)
    requires ChainAt(desc, h, ds)
    ensures |ds| > 0 && h < VIRTIO_RING_SIZE && Slot(h, 0) == h
  {
  }

  lemma {:induction false} PublishKeeps(desc: seq<Desc>, avail: seq<nat>, availIdx: nat, seen: nat, used: seq<nat>,
                                        usedIdx: nat, ack: nat,
                                        g: Trace, head: nat, ds: seq<Desc>)
    requires MemInv(desc, g.chains) && HeadsInv(g) && TraceInv(g)
      && RingInv(avail, availIdx, seen, used, usedIdx, ack, g)
    requires ChainAt(desc, head, ds) && forall i | 0 <= i < |ds| :: Unused(g.chains, Slot(head, i))
    ensures head !in g.chains
    ensures var g' := Published(g, head, ds);
      && MemInv(desc, g'.chains) && HeadsInv(g') && TraceInv(g')
      && RingInv(avail[availIdx % VIRTIO_RING_SIZE := head], (availIdx + 1) % WRAP, seen, used, usedIdx, ack, g')
  {
    hide ChainAt, Flatten, MemInv, Unused, HeadsInv, TraceInv, RingInv;
    PublishMem(desc, g.chains, head, |g.sent|, ds);
    ChainHead(desc, head, ds);
    PublishHeads(g, head, ds);
    PublishTrace(g, head, ds);
    PublishRing(avail, availIdx, seen, used, usedIdx, ack, g, head, ds);
  }

  lemma {:induction false} PublishHeads(g: Trace, head: nat, ds: seq<Desc>)
    requires HeadsInv(g) && head !in g.chains && head < VIRTIO_RING_SIZE
    ensures HeadsInv(Published(g, head, ds))
  {
    NoDupAdd(g.pend, head);
    assert forall h :: h in g.pend + [head] <==> h in g.pend || h == head;
  }

  lemma {:induction false} PublishTrace(g: Trace, head: nat, ds: seq<Desc>)
    requires HeadsInv(g) && TraceInv(g) && head !in g.chains
    ensures TraceInv(Published(g, head, ds))
  {
    hide Flatten, IdInv, DoneInv, FreedInv, HeadsInv;
    var g' := Published(g, head, ds);
    HeadsFacts(g);
    assert Waiting(g') == Waiting(g) + {head};
    IdBound(g.sent, g.chains, Waiting(g), g.history);
    PublishFreed(g, head, ds);
    IdPublish(g.sent, g.chains, Waiting(g), g.history, head, ds);
    DonePublish(g.sent, g.chains, g.done, g.history, g.read, head, ds);
  }

  lemma {:induction false} HeadsFacts(g: Trace)
    requires HeadsInv(g)
    ensures forall h | h in Waiting(g) :: h in g.chains
    ensures forall i | 0 <= i < |g.done| :: g.done[i] in g.chains
    ensures NoDup(g.pend) && NoDup(g.done)
    ensures forall h | h in g.flight :: h !in g.pend && h !in g.done && h < VIRTIO_RING_SIZE && g.cur != Some(h)
    ensures forall i | 0 <= i < |g.done| :: g.done[i] < VIRTIO_RING_SIZE
  {
    forall i | 0 <= i < |g.done| ensures g.done[i] in g.chains { assert g.done[i] in g.done; }
  }

  lemma {:induction false} IdBound(sent: seq<seq<Desc>>, chains: map<nat, Chain>, waiting: set<nat>, history: seq<nat>)
    requires IdInv(sent, chains, waiting, history)
    ensures forall id | id in history :: id < |sent|
  {
  }

  lemma {:induction false} IdPublish(sent: seq<seq<Desc>>, chains: map<nat, Chain>, waiting: set<nat>,
                                     history: seq<nat>, head: nat, ds: seq<Desc>)
    requires IdInv(sent, chains, waiting, history) && head !in chains
    ensures IdInv(sent + [ds], chains[head := Chain(|sent|, ds)], waiting + {head}, history)
  {
    forall h | h in waiting ensures h != head && chains[h].id < |sent| { }
  }

  lemma {:induction false} DonePublish(sent: seq<seq<Desc>>, chains: map<nat, Chain>, done: seq<nat>,
                                       history: seq<nat>, read: nat, head: nat, ds: seq<Desc>)
    requires DoneInv(sent, chains, done, history, read) && head !in chains
    ensures DoneInv(sent + [ds], chains[head := Chain(|sent|, ds)], done, history, read)
  {
  }

  lemma {:induction false} PublishFreed(g: Trace, head: nat, ds: seq<Desc>)
    requires HeadsInv(g) && FreedInv(g) && head !in g.chains && forall id | id in g.history :: id < |g.sent|
    ensures FreedInv(Published(g, head, ds))
  {
    hide Flatten;
    forall i | 0 <= i < g.read ensures g.history[i] < |g.sent| { assert g.history[i] in g.history; }
    FlattenMore(g.sent, ds, g.history[..g.read]);
    assert Rest(Published(g, head, ds)) == Rest(g);
  }

  lemma {:induction false} PublishRing(avail: seq<nat>, availIdx: nat, seen: nat, used: seq<nat>, usedIdx: nat,
                                       ack: nat,
                                       g: Trace, head: nat, ds: seq<Desc>)
    requires HeadsInv(g) && RingInv(avail, availIdx, seen, used, usedIdx, ack, g) && head !in g.chains
      && head < VIRTIO_RING_SIZE
    ensures RingInv(avail[availIdx % VIRTIO_RING_SIZE := head], (availIdx + 1) % WRAP, seen, used, usedIdx, ack,
      Published(g, head, ds))
  {
    hide NoDup;
    WrapSlot(|g.sent|);
    NoDupAdd(g.pend, head);
    Pigeonhole(g.pend + [head], VIRTIO_RING_SIZE);
    RingAppend(avail, |g.sent| - |g.pend|, g.pend, head);
  }

  ghost function Taken(g: Trace): Trace
    requires g.pend != []
  {
    g.(pend := g.pend[1..], flight := g.flight + {g.pend[0]})
  }

  lemma {:induction false} TakeKeeps(avail: seq<nat>, availIdx: nat, seen: nat, used: seq<nat>, usedIdx: nat,
                                     ack: nat, g: Trace)
    requires HeadsInv(g) && TraceInv(g) && RingInv(avail, availIdx, seen, used, usedIdx, ack, g) && seen != availIdx
    ensures g.pend != [] && avail[seen % VIRTIO_RING_SIZE] == g.pend[0]
    ensures HeadsInv(Taken(g)) && TraceInv(Taken(g))
      && RingInv(avail, availIdx, (seen + 1) % WRAP, used, usedIdx, ack, Taken(g))
  {
    hide HeadsInv, TraceInv, Flatten;
    TakeRing(avail, availIdx, seen, used, usedIdx, ack, g);
    hide RingInv;
    TakeHeads(g);
  }

  lemma {:induction false} TakeHeads(g: Trace)
    requires HeadsInv(g) && TraceInv(g) && g.pend != []
    ensures HeadsInv(Taken(g)) && TraceInv(Taken(g))
  {
    hide IdInv, DoneInv, Flatten, HeadsInv, FreedInv;
    HeadsFacts(g);
    SplitFirst(g.pend);
    TakeOnly(g);
    assert Waiting(Taken(g)) == Waiting(g);
    FreedSame(g, Taken(g));
  }

  lemma {:induction false} SplitFirst(s: seq<nat>)
    requires s != [] && NoDup(s)
    ensures s[0] !in s[1..] && NoDup(s[1..]) && forall x :: x in s <==> x == s[0] || x in s[1..]
  {
  }

  lemma {:induction false} FreedSame(g: Trace, g': Trace)
    requires FreedInv(g) && g' == g.(pend := g'.pend, flight := g'.flight)
    ensures FreedInv(g')
  {
  }

  lemma {:induction false} TakeOnly(g: Trace)
    requires HeadsInv(g) && g.pend != [] && g.pend[0] !in g.pend[1..] && NoDup(g.pend[1..])
    requires forall x :: x in g.pend <==> x == g.pend[0] || x in g.pend[1..]
    ensures HeadsInv(Taken(g)) && g.pend[0] !in g.flight
  {
    assert g.pend[0] in g.pend;
  }

  lemma {:induction false} TakeRing(avail: seq<nat>, availIdx: nat, seen: nat, used: seq<nat>, usedIdx: nat, ack: nat,
                                    g: Trace)
    requires RingInv(avail, availIdx, seen, used, usedIdx, ack, g) && seen != availIdx
    ensures g.pend != [] && avail[seen % VIRTIO_RING_SIZE] == g.pend[0]
    ensures RingInv(avail, availIdx, (seen + 1) % WRAP, used, usedIdx, ack, Taken(g))
  {
    var n := |g.sent| - |g.pend|;
    WrapSlot(n);
    assert avail[(n + 0) % VIRTIO_RING_SIZE] == g.pend[0];
    forall i | 0 <= i < |g.pend[1..]| ensures avail[(n + 1 + i) % VIRTIO_RING_SIZE] == g.pend[1..][i] {
      assert avail[(n + (i + 1)) % VIRTIO_RING_SIZE] == g.pend[i + 1];
    }
  }

  ghost function Returned(g: Trace, head: nat): Trace
    requires head in g.chains
  {
    g.(flight := g.flight - {head}, done := g.done + [head], history := g.history + [g.chains[head].id])
  }

  lemma {:induction false} ReturnKeeps(avail: seq<nat>, availIdx: nat, seen: nat, used: seq<nat>, usedIdx: nat,
                                       ack: nat, g: Trace, head: nat)
    requires HeadsInv(g) && TraceInv(g) && RingInv(avail, availIdx, seen, used, usedIdx, ack, g) && head in g.flight
    ensures head in g.chains
    ensures var g' := Returned(g, head);
      && HeadsInv(g') && TraceInv(g')
      && RingInv(avail, availIdx, seen, used[usedIdx % VIRTIO_RING_SIZE := head], (usedIdx + 1) % WRAP, ack, g')
  {
    hide HeadsInv, TraceInv, RingInv, Flatten;
    ReturnHeads(g, head);
    ReturnTrace(g, head);
    ReturnRing(avail, availIdx, seen, used, usedIdx, ack, g, head);
  }

  lemma {:induction false} ReturnHeads(g: Trace, head: nat)
    requires HeadsInv(g) && head in g.flight
    ensures head in g.chains
    ensures HeadsInv(Returned(g, head))
  {
    NoDupAdd(g.done, head);
    assert forall h :: h in g.done + [head] <==> h in g.done || h == head;
  }

  lemma {:induction false} ReturnTrace(g: Trace, head: nat)
    requires HeadsInv(g) && TraceInv(g) && head in g.flight
    ensures TraceInv(Returned(g, head))
  {
    hide Flatten, IdInv, DoneInv, FreedInv, HeadsInv;
    HeadsFacts(g);
    assert head in Waiting(g);
    var g', id := Returned(g, head), g.chains[head].id;
    assert Waiting(g') == Waiting(g) - {head};
    ReturnFreed(g, head);
    IdReturn(g.sent, g.chains, Waiting(g), g.history, head);
    NoDupAdd(g.history, id);
    DoneReturn(g.sent, g.chains, g.done, g.history, g.read, head);
  }

  lemma {:induction false} IdReturn(sent: seq<seq<Desc>>, chains: map<nat, Chain>, waiting: set<nat>,
                                    history: seq<nat>, head: nat)
    requires IdInv(sent, chains, waiting, history) && head in waiting && head in chains
    ensures chains[head].id !in history && chains[head].id < |sent| && chains[head].descs == sent[chains[head].id]
    ensures IdInv(sent, chains, waiting - {head}, history + [chains[head].id])
  {
    var id := chains[head].id;
    assert forall x :: x in history + [id] <==> x in history || x == id;
  }

  lemma {:induction false} DoneReturn(sent: seq<seq<Desc>>, chains: map<nat, Chain>, done: seq<nat>,
                                      history: seq<nat>, read: nat, head: nat)
    requires DoneInv(sent, chains, done, history, read) && head in chains
    requires chains[head].id < |sent| && chains[head].descs == sent[chains[head].id]
    ensures DoneInv(sent, chains, done + [head], history + [chains[head].id], read)
  {
  }

  lemma {:induction false} ReturnFreed(g: Trace, head: nat)
    requires FreedInv(g) && head in g.chains
    ensures FreedInv(Returned(g, head))
  {
    hide Flatten;
    assert Returned(g, head).history[..g.read] == g.history[..g.read];
    assert Rest(Returned(g, head)) == Rest(g);
  }

  lemma {:induction false} ReturnRing(avail: seq<nat>, availIdx: nat, seen: nat, used: seq<nat>, usedIdx: nat,
                                      ack: nat, g: Trace, head: nat)
    requires HeadsInv(g) && TraceInv(g) && RingInv(avail, availIdx, seen, used, usedIdx, ack, g) && head in g.flight
    ensures RingInv(avail, availIdx, seen, used[usedIdx % VIRTIO_RING_SIZE := head], (usedIdx + 1) % WRAP, ack,
      Returned(g, head))
  {
    hide Flatten, IdInv, FreedInv, HeadsInv, NoDup, Unread;
    WrapSlot(|g.history|);
    HeadsFacts(g);
    NoDupAdd(g.done, head);
    Pigeonhole(g.done + [head], VIRTIO_RING_SIZE);
    RingAppend(used, g.read, g.done, head);
  }

  /** A ring of unread heads takes one more behind them. */
  lemma {:induction false} RingAppend(used: seq<nat>, read: nat, done: seq<nat>, head: nat)
    requires Unread(used, read, done) && |done| < VIRTIO_RING_SIZE
    ensures Unread(used[(read + |done|) % VIRTIO_RING_SIZE := head], read, done + [head])
  {
    var u, d := used[(read + |done|) % VIRTIO_RING_SIZE := head], done + [head];
    forall i | 0 <= i < |d| ensures u[(read + i) % VIRTIO_RING_SIZE] == d[i] {
      if i < |done| { SlotsDiffer(read + i, read + |done|); }
    }
  }

  // ---------------------------------------------------------------- the handler as values

  lemma {:induction false} SlotFacts(h: nat)
    requires h < VIRTIO_RING_SIZE
    ensures Slot(h, 0) == h && Slot(Slot(h, 1), 1) == Slot(h, 2)
    ensures Slot(h, 0) != Slot(h, 1) && Slot(h, 1) != Slot(h, 2) && Slot(h, 0) != Slot(h, 2)
  {
  }

  /** What other activity leaves alone: only sends and returns are added. */
  ghost predicate Grew(g: Trace, g': Trace) {
    && g.sent <= g'.sent && g.history <= g'.history && |g.done| <= |g'.done|
    && g'.cur == g.cur && g'.busy == g.busy && g'.read == g.read && g'.freed == g.freed && Rest(g') == Rest(g)
  }

  lemma {:induction false} GrewSelf(g: Trace)
    ensures Grew(g, g)
  {
  }

  lemma {:induction false} GrewTrans(a: Trace, b: Trace, c: Trace)
    requires Grew(a, b) && Grew(b, c)
    ensures Grew(a, c)
  {
  }

  lemma {:induction false} GrewFacts(g: Trace, g': Trace)
    requires Grew(g, g')
    ensures g.sent <= g'.sent && g.history <= g'.history && g'.cur == g.cur && g'.busy == g.busy && Rest(g') == Rest(g)
  {
  }

  lemma {:induction false} SendGrew(desc: seq<Desc>, idx: nat, g: Trace, desc': seq<Desc>, idx': nat, g': Trace,
                                    ds: seq<Desc>, ok: bool)
    requires |desc| == VIRTIO_RING_SIZE && Plain(ds) && SendSpec(desc, idx, g, desc', idx', g', ds, ok)
    requires HeadsInv(g)
    ensures Grew(g, g')
  {
  }

  lemma {:induction false} TakeGrew(g: Trace)
    requires g.pend != []
    ensures Grew(g, Taken(g))
  {
  }

  lemma {:induction false} ReturnGrew(g: Trace, head: nat)
    requires head in g.chains
    ensures Grew(g, Returned(g, head))
  {
  }

  ghost function Reading(g: Trace): Trace
    requires g.done != []
  {
    g.(done := g.done[1..], cur := Some(g.done[0]), read := g.read + 1, busy := true)
  }

  /** The chains once the first slot of the chain at `c` is free again. */
  ghost function Dropped(chains: map<nat, Chain>, c: nat): map<nat, Chain>
    requires c in chains && chains[c].descs != []
  {
    if |chains[c].descs| > 1 then (chains - {c})[Slot(c, 1) := Chain(chains[c].id, chains[c].descs[1..])]
      else chains - {c}
  }

  ghost function Freeing(g: Trace): Trace
    requires g.cur.Some? && g.cur.value in g.chains && g.chains[g.cur.value].descs != []
  {
    var c := g.cur.value;
    g.(chains := Dropped(g.chains, c), freed := g.freed + [g.chains[c].descs[0]],
       cur := if |g.chains[c].descs| > 1 then Some(Slot(c, 1)) else None)
  }

  /** The 16-bit comparison of the handler tells whether returned chains are unread. */
  lemma {:induction false} UsedPending(avail: seq<nat>, availIdx: nat, seen: nat, used: seq<nat>, usedIdx: nat,
                                       ack: nat, g: Trace)
    requires HeadsInv(g) && TraceInv(g) && RingInv(avail, availIdx, seen, used, usedIdx, ack, g) && !g.busy
    ensures ack != usedIdx <==> g.done != []
  {
    hide HeadsInv, IdInv, FreedInv, Flatten, NoDup;
    HeadsFacts(g);
    forall x | x in g.done ensures x < VIRTIO_RING_SIZE { }
    Pigeonhole(g.done, VIRTIO_RING_SIZE);
  }

  lemma {:induction false} AllHandedBack(g: Trace)
    requires TraceInv(g) && HeadsInv(g) && !g.busy && g.done == []
    ensures g.freed == Flatten(g.sent, g.history)
  {
    hide Flatten, IdInv;
    assert g.cur == None;
    assert g.history[..g.read] == g.history;
    assert g.freed + [] == g.freed;
  }

  lemma {:induction false} ReadKeeps(desc: seq<Desc>, avail: seq<nat>, availIdx: nat, seen: nat, used: seq<nat>,
                                     usedIdx: nat, ack: nat, g: Trace)
    requires HeadsInv(g) && TraceInv(g) && RingInv(avail, availIdx, seen, used, usedIdx, ack, g) && !g.busy
      && g.done != []
    ensures used[ack % VIRTIO_RING_SIZE] == g.done[0]
    ensures HeadsInv(Reading(g)) && TraceInv(Reading(g))
      && RingInv(avail, availIdx, seen, used, usedIdx, ack, Reading(g))
  {
    hide HeadsInv, TraceInv, Flatten;
    ReadRing(avail, availIdx, seen, used, usedIdx, ack, g);
    ReadHeads(g);
    ReadTrace(g);
  }

  lemma {:induction false} ReadRing(avail: seq<nat>, availIdx: nat, seen: nat, used: seq<nat>, usedIdx: nat, ack: nat,
                                    g: Trace)
    requires RingInv(avail, availIdx, seen, used, usedIdx, ack, g) && !g.busy && g.done != []
    ensures used[ack % VIRTIO_RING_SIZE] == g.done[0]
    ensures RingInv(avail, availIdx, seen, used, usedIdx, ack, Reading(g))
  {
    WrapSlot(g.read);
    assert used[(g.read + 0) % VIRTIO_RING_SIZE] == g.done[0];
    forall i | 0 <= i < |g.done[1..]| ensures used[(g.read + 1 + i) % VIRTIO_RING_SIZE] == g.done[1..][i] {
      assert used[(g.read + (i + 1)) % VIRTIO_RING_SIZE] == g.done[i + 1];
    }
  }

  lemma {:induction false} ReadHeads(g: Trace)
    requires HeadsInv(g) && !g.busy && g.done != []
    ensures HeadsInv(Reading(g))
  {
    SplitFirst(g.done);
    assert g.done[0] in g.done;
  }

  lemma {:induction false} ReadTrace(g: Trace)
    requires HeadsInv(g) && TraceInv(g) && !g.busy && g.done != []
    ensures TraceInv(Reading(g))
  {
    hide IdInv, Flatten, NoDup;
    var g' := Reading(g);
    assert g.cur == None;
    assert Waiting(g') == Waiting(g);
    assert g.done[0] in g.chains && g.chains[g.done[0]].id == g.history[g.read + 0];
    FlattenLast(g.sent, g.history, g.read);
    assert g.freed + [] == g.freed;
    ReadDone(g.sent, g.chains, g.done, g.history, g.read);
    hide DoneInv;
  }

  lemma {:induction false} ReadDone(sent: seq<seq<Desc>>, chains: map<nat, Chain>, done: seq<nat>, history: seq<nat>,
                                    read: nat)
    requires DoneInv(sent, chains, done, history, read) && done != []
    ensures DoneInv(sent, chains, done[1..], history, read + 1)
  {
    forall i | 0 <= i < |done[1..]| ensures done[1..][i] == done[i + 1]
      && history[read + 1 + i] == history[read + (i + 1)] { }
  }

  lemma {:induction false} FlattenLast(sent: seq<seq<Desc>>, history: seq<nat>, n: nat)
    requires n < |history| && history[n] < |sent|
    ensures Flatten(sent, history[..n + 1]) == Flatten(sent, history[..n]) + sent[history[n]]
  {
    assert history[..n + 1][..n] == history[..n];
  }

  lemma {:induction false} CurAt(desc: seq<Desc>, g: Trace)
    requires MemInv(desc, g.chains) && HeadsInv(g) && g.cur.Some?
    ensures var c := g.cur.value;
      && c in g.chains && c < |desc| == VIRTIO_RING_SIZE && g.chains[c].descs != [] && desc[c] == g.chains[c].descs[0]
         && Rest(g) == g.chains[c].descs
      && (HasNext(desc[c]) <==> |g.chains[c].descs| > 1) && (HasNext(desc[c]) ==> desc[c].next == Slot(c, 1))
  {
    var c := g.cur.value;
    assert ChainAt(desc, c, g.chains[c].descs);
    ChainHead(desc, c, g.chains[c].descs);
    assert desc[Slot(c, 0)] == g.chains[c].descs[0];
  }

  lemma {:induction false} FreeKeeps(desc: seq<Desc>, avail: seq<nat>, availIdx: nat, seen: nat, used: seq<nat>,
                                     usedIdx: nat, ack: nat, g: Trace)
    requires MemInv(desc, g.chains) && HeadsInv(g) && TraceInv(g)
      && RingInv(avail, availIdx, seen, used, usedIdx, ack, g) && g.cur.Some?
    ensures g.cur.value in g.chains && g.chains[g.cur.value].descs != [] && g.cur.value < |desc|
    ensures MemInv(desc[g.cur.value := EMPTY], Freeing(g).chains) && HeadsInv(Freeing(g)) && TraceInv(Freeing(g))
    ensures RingInv(avail, availIdx, seen, used, usedIdx, ack, Freeing(g)) && Rest(Freeing(g)) == Rest(g)[1..]
  {
    hide MemInv, HeadsInv, TraceInv, Flatten;
    CurAt(desc, g);
    FreeMem(desc, g.chains, g.cur.value);
    FreeHeads(g);
    FreeTrace(g);
  }

  lemma {:induction false} FreeMem(desc: seq<Desc>, chains: map<nat, Chain>, c: nat)
    requires MemInv(desc, chains) && c in chains && c < VIRTIO_RING_SIZE && chains[c].descs != []
    ensures MemInv(desc[c := EMPTY], Dropped(chains, c))
    ensures |chains[c].descs| > 1 ==> Slot(c, 1) !in chains
  {
    hide Apart, ChainAt;
    var ds, d', k := chains[c].descs, desc[c := EMPTY], Dropped(chains, c);
    assert ChainAt(desc, c, ds);
    if |ds| > 1 { NextNotHead(desc, chains, c); RestAt(desc, c, ds); }
    forall h | h in chains && h != c ensures ChainAt(d', h, chains[h].descs) {
      OthersKeep(desc, chains, c, h);
    }
    DropApart(desc, chains, c);
  }

  lemma {:induction false} NextNotHead(desc: seq<Desc>, chains: map<nat, Chain>, c: nat)
    requires MemInv(desc, chains) && c in chains && |chains[c].descs| > 1
    ensures Slot(c, 1) !in chains
  {
    var s := Slot(c, 1);
    assert ChainAt(desc, c, chains[c].descs);
    SlotFacts(c);
    if s in chains {
      assert ChainAt(desc, s, chains[s].descs);
      BothUse(chains, c, s);
      assert false;
    }
  }

  lemma {:induction false} BothUse(chains: map<nat, Chain>, c: nat, s: nat)
    requires c in chains && s in chains && c != s && s == Slot(c, 1) && |chains[c].descs| > 1 && |chains[s].descs| > 0
    ensures !Apart(chains)
  {
    assert Uses(c, |chains[c].descs|, s);
    assert s == Slot(s, 0);
    assert Uses(s, |chains[s].descs|, s);
  }

  lemma {:induction false} RestAt(desc: seq<Desc>, c: nat, ds: seq<Desc>)
    requires ChainAt(desc, c, ds) && |ds| > 1
    ensures ChainAt(desc[c := EMPTY], Slot(c, 1), ds[1..])
  {
    SlotFacts(c);
    forall i | 0 <= i < |ds[1..]| ensures Slot(Slot(c, 1), i) == Slot(c, i + 1) && Slot(c, i + 1) != c { }
  }

  lemma {:induction false} OthersKeep(desc: seq<Desc>, chains: map<nat, Chain>, c: nat, h: nat)
    requires MemInv(desc, chains) && c in chains && c < VIRTIO_RING_SIZE && chains[c].descs != [] && h in chains
      && h != c
    ensures ChainAt(desc[c := EMPTY], h, chains[h].descs)
  {
    assert ChainAt(desc, h, chains[h].descs);
    assert c == Slot(c, 0);
    assert Uses(c, |chains[c].descs|, c);
    forall i | 0 <= i < |chains[h].descs| ensures Slot(h, i) != c {
      if Slot(h, i) == c { assert Uses(h, |chains[h].descs|, c); }
    }
  }

  lemma {:induction false} DropApart(desc: seq<Desc>, chains: map<nat, Chain>, c: nat)
    requires MemInv(desc, chains) && c in chains && chains[c].descs != []
    ensures Apart(Dropped(chains, c))
  {
    var k, n := Dropped(chains, c), Slot(c, 1);
    if |chains[c].descs| > 1 {
      forall s | Uses(n, |k[n].descs|, s) ensures Uses(c, |chains[c].descs|, s) {
        var i :| 0 <= i < |k[n].descs| && s == Slot(n, i);
        assert s == Slot(c, i + 1);
      }
    }
  }

  lemma {:induction false} FreeHeads(g: Trace)
    requires HeadsInv(g) && g.cur.Some? && g.cur.value in g.chains && g.chains[g.cur.value].descs != []
    requires |g.chains[g.cur.value].descs| > 1 ==> Slot(g.cur.value, 1) !in g.chains
    ensures HeadsInv(Freeing(g))
  {
  }

  lemma {:induction false} FreeTrace(g: Trace)
    requires HeadsInv(g) && TraceInv(g) && g.cur.Some? && g.cur.value in g.chains && g.chains[g.cur.value].descs != []
    requires |g.chains[g.cur.value].descs| > 1 ==> Slot(g.cur.value, 1) !in g.chains
    ensures TraceInv(Freeing(g)) && Rest(Freeing(g)) == Rest(g)[1..]
  {
    hide Flatten, NoDup, IdInv, DoneInv, HeadsInv;
    var g', c := Freeing(g), g.cur.value;
    HeadsFacts(g);
    CurApart(g);
    assert Waiting(g') == Waiting(g);
    IdDrop(g.sent, g.chains, Waiting(g), g.history, c);
    DoneDrop(g.sent, g.chains, g.done, g.history, g.read, c);
    var ds := g.chains[c].descs;
    assert ds == [ds[0]] + ds[1..];
    assert Rest(g') == ds[1..];
    assert g.freed + ds == g'.freed + ds[1..];
  }

  lemma {:induction false} CurApart(g: Trace)
    requires HeadsInv(g) && g.cur.Some?
    ensures g.cur.value !in Waiting(g) && forall i | 0 <= i < |g.done| :: g.done[i] != g.cur.value
    ensures g.busy
  {
    forall i | 0 <= i < |g.done| ensures g.done[i] != g.cur.value { assert g.done[i] in g.done; }
  }

  lemma {:induction false} IdDrop(sent: seq<seq<Desc>>, chains: map<nat, Chain>, waiting: set<nat>, history: seq<nat>,
                                  c: nat)
    requires IdInv(sent, chains, waiting, history) && c !in waiting && c in chains && chains[c].descs != []
    requires |chains[c].descs| > 1 ==> Slot(c, 1) !in chains
    ensures IdInv(sent, Dropped(chains, c), waiting, history)
  {
    var k := Dropped(chains, c);
    forall h | h in waiting ensures h in chains && h in k && k[h] == chains[h] { }
  }

  lemma {:induction false} DoneDrop(sent: seq<seq<Desc>>, chains: map<nat, Chain>, done: seq<nat>, history: seq<nat>,
                                    read: nat, c: nat)
    requires DoneInv(sent, chains, done, history, read) && c in chains && chains[c].descs != []
    requires forall i | 0 <= i < |done| :: done[i] != c
    requires |chains[c].descs| > 1 ==> Slot(c, 1) !in chains
    ensures DoneInv(sent, Dropped(chains, c), done, history, read)
  {
    var k := Dropped(chains, c);
    forall i | 0 <= i < |done| ensures done[i] in chains && done[i] in k && k[done[i]] == chains[done[i]] { }
  }

  lemma {:induction false} AckKeeps(avail: seq<nat>, availIdx: nat, seen: nat, used: seq<nat>, usedIdx: nat, ack: nat,
                                    g: Trace)
    requires HeadsInv(g) && TraceInv(g) && RingInv(avail, availIdx, seen, used, usedIdx, ack, g) && g.busy
      && g.cur == None
    ensures HeadsInv(g.(busy := false)) && TraceInv(g.(busy := false))
    ensures RingInv(avail, availIdx, seen, used, usedIdx, (ack + 1) % WRAP, g.(busy := false))
  {
    hide IdInv, DoneInv, Flatten, NoDup;
    WrapSlot(g.read - 1);
    assert Waiting(g.(busy := false)) == Waiting(g);
  }

  // ---------------------------------------------------------------- what every state promises

  /** Chains on their way never outnumber the entries of a ring, so no unread entry is overwritten. */
  lemma {:induction false} RingsNotOverrun(q: Queue)
    requires q.Valid()
    ensures |q.g.pend| + |q.g.flight| + |q.g.done| <= VIRTIO_RING_SIZE
  {
    hide TraceInv, RingInv, MemInv;
    var g := q.g;
    var p := NoDupSet(g.pend);
    var d := NoDupSet(g.done);
    var all := p + g.flight + d;
    assert |all| == |p| + |g.flight| + |d|;
    SubsetSize(all, Below(VIRTIO_RING_SIZE));
  }

  /** When the driver is idle, each returned request has been handed back once, as it was sent and in order. */
  lemma {:induction false} HandedBackOnce(q: Queue, i: nat, j: nat)
    requires q.Valid() && !q.g.busy && i < j < q.g.read
    ensures q.g.freed == Flatten(q.g.sent, q.g.history[..q.g.read]) && q.g.history[i] != q.g.history[j]
  {
    hide RingInv, MemInv, IdInv, Flatten;
    assert q.g.cur == None;
    assert q.g.freed + [] == q.g.freed;
  }
}
