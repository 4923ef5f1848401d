/**
 The timer queue of core/timer.c: a red-black tree ordered by expiry with a cached first timer,
 and the handler that runs expired callbacks and lets them restart.

 The tree is shown to behave like a plain list that is kept in expiry order (`Enqueue`,
 `Without`), with timers of equal expiry in the order in which they were added.
 */
module Timer {
  import opened Lists
  import opened RbShape
  import opened RbOrder
  import RbSteps
  import opened RbTree

  const KTIME_MAX: int := 0x7fff_ffff_ffff_ffff
  const KTIME_MIN: int := -0x8000_0000_0000_0000

  type Ktime = t: int | KTIME_MIN <= t <= KTIME_MAX

  /** The sum as a signed 64-bit addition delivers it. */
  function Add64(a: Ktime, b: Ktime): Ktime {
    if a + b > KTIME_MAX then a + b - 0x1_0000_0000_0000_0000
    else if a + b < KTIME_MIN then a + b + 0x1_0000_0000_0000_0000
    else a + b
  }

  /** `ktime_add_safe` */
  function AddSafe(a: Ktime, b: Ktime): Ktime {
    var kt := Add64(a, b);
    if kt < 0 || kt < a || kt < b then KTIME_MAX else kt
  }

  /** The sum, cut off at the ends of time */
  function Saturated(a: Ktime, b: Ktime): Ktime {
    if a + b > KTIME_MAX then KTIME_MAX else if a + b < KTIME_MIN then KTIME_MIN else a + b
  }

  /** The code saturates if and only if neither time is negative. */
  lemma {:induction false} AddSafeSaturates(a: Ktime, b: Ktime)
    ensures AddSafe(a, b) == Saturated(a, b) <==> a >= 0 && b >= 0
  {
  }

  /** With a negative time the sum is the end of time, unless both are negative and the sum wraps. */
  lemma {:induction false} AddSafeNegative(a: Ktime, b: Ktime)
    requires a < 0 || b < 0
    ensures AddSafe(a, b) == if a + b < KTIME_MIN then a + b + 0x1_0000_0000_0000_0000 else KTIME_MAX
  {
  }

  /** A negative interval gives the end of time although the sum fits; two negative times can wrap to a late one. */
  lemma {:induction false} AddSafeFails()
    ensures AddSafe(10, -5) == KTIME_MAX && Saturated(10, -5) == 5
    ensures AddSafe(KTIME_MIN, -2) == KTIME_MAX - 1 && Saturated(KTIME_MIN, -2) == KTIME_MIN
  {
  }

  datatype TimerState = Inactive | Enqueued | Callback

  /** A call that a callback can make for any timer */
  datatype Call = Start(timer: Ptr, time: Ktime, interval: Ktime) | Cancel(timer: Ptr)

  /**
   What a callback does: the calls it makes, and for its own timer the expiry it leaves and whether it
   asks to be restarted.
   */
  datatype Outcome = Outcome(calls: seq<Call>, restart: bool, expires: Ktime)

  // ---------------------------------------------------------------- the queue as a list

  /** Insertion before the first timer that expires later. */
  ghost function Enqueue(q: seq<Ptr>, expires: map<Ptr, Ktime>, x: Ptr): seq<Ptr>
    requires x in expires && forall p | p in q :: p in expires
  {
    if q == [] || expires[x] < expires[q[0]] then [x] + q
    else [q[0]] + Enqueue(q[1..], expires, x)
  }

  lemma {:induction false} EnqueueAt(a: seq<Ptr>, b: seq<Ptr>, expires: map<Ptr, Ktime>, x: Ptr)
    requires x in expires && forall p | p in a + b :: p in expires
    requires forall p | p in a :: expires[p] <= expires[x]
    requires b != [] ==> expires[x] < expires[b[0]]
    ensures Enqueue(a + b, expires, x) == a + [x] + b
  {
    if a == [] {
      assert a + b == b;
    } else {
      var s, t := a + b, a[1..] + b;
      assert s[1..] == t && a[0] in a && (forall p | p in a[1..] :: p in a) && forall p | p in t :: p in s;
      EnqueueAt(a[1..], b, expires, x);
      assert a + [x] + b == [a[0]] + (a[1..] + [x] + b);
    }
  }

  /** Timer `p` comes before `q`: by expiry, then by the order of insertion. */
  ghost predicate Earlier(expires: map<Ptr, Ktime>, stamp: map<Ptr, nat>, p: Ptr, q: Ptr) {
    && p in expires && q in expires && p in stamp && q in stamp
    && (expires[p] < expires[q] || (expires[p] == expires[q] && stamp[p] < stamp[q]))
  }

  ghost predicate InOrderOfExpiry(s: seq<Ptr>, expires: map<Ptr, Ktime>, stamp: map<Ptr, nat>) {
    forall i, j | 0 <= i < j < |s| :: Earlier(expires, stamp, s[i], s[j])
  }

  // ---------------------------------------------------------------- the queue in memory

  /** The node of a timer that is not in the tree is cleared. */
  ghost predicate Idle(mem: Heap, state: map<Ptr, TimerState>, inTree: set<Ptr>) {
    forall p | p in state && p !in inTree :: p in mem && RbSteps.IsCleared(mem, p)
  }

  class TimerBase {
    const head: RbRoot
    /** The cached first timer; null if there is none. */
    var next: Ptr
    var state: map<Ptr, TimerState>
    var expires: map<Ptr, Ktime>
    /** The expiry last asked of the clock event device. */
    var asked: Ktime
    /** When each timer was added, and a bound on those moments. */
    ghost var stamp: map<Ptr, nat>
    ghost var now: nat

    /** The timers in the order of the tree. */
    ghost function Queue(): seq<Ptr>
      reads this, head
    {
      InOrder(head.tree)
    }

    ghost predicate Valid()
      reads this, head
    {
      && head.Valid()
      && Known(Queue(), state, expires, stamp, now, Ptrs(head.tree), head.mem.Keys)
      && InOrderOfExpiry(Queue(), expires, stamp)
      && next == Edge(Queue(), Lf)
      && Idle(head.mem, state, Ptrs(head.tree))
    }

    /** The device has last been asked for the expiry of the first timer. */
    ghost predicate Armed()
      reads this, head
    {
      next != 0 ==> next in expires && asked == expires[next]
    }

    /**
     `timer_init`: the timer is inactive and its node cleared, which must not be done to one in the
     queue.
     */
    method Init(timer: Ptr)
      requires Valid() && timer != 0
      modifies this`state, this`expires, head
      ensures state == old(state)[timer := Inactive] && expires == old(expires)[timer := 0]
      ensures Queue() == old(Queue()) && timer in head.mem && RbSteps.IsCleared(head.mem, timer)
      ensures Valid() <==> timer !in old(Queue())
      ensures Valid() && old(Armed()) ==> Armed()
    {
      hide Ptrs, InOrder, Edge, InOrderOfExpiry, IsRbTree, Idle;
      if timer !in Queue() {
        IdleInit(head.mem, state, Ptrs(head.tree), timer);
        InitKeeps(Queue(), state, expires, stamp, now, Ptrs(head.tree), head.mem.Keys, timer);
      }
      head.Adopt(timer);
      state, expires := state[timer := Inactive], expires[timer := 0];
    }

    /** The empty place that the descent of `add_timer` ends at. */
    method FindPlace(timer: Ptr) returns (parent: Ptr, side: Dir, ghost c: Context)
      requires Valid() && timer in expires
      ensures Fill(c, Leaf) == head.tree && parent == Above(c, 0) && (c.Up? ==> side == c.d)
      ensures Between(c, expires, expires[timer])
    {
      hide RepContext, DistinctContext, Distinct, Before, After, ContextPtrs, Ptrs, InOrder, RedBlack, BlackHeight,
        Rep, Fill, Known, InOrderOfExpiry, Whole, Edge;
      var cur := head.root;
      parent, side, c := 0, Lf, Top;
      ghost var t := head.tree;
      PlaceStart(head.mem, cur, t, expires, expires[timer]);
      while cur != 0
        invariant Fill(c, t) == head.tree && Root(t) == cur && (cur == 0 <==> t.Leaf?)
        invariant parent == Above(c, 0) && (c.Up? ==> side == c.d)
        invariant Between(c, expires, expires[timer])
        decreases t
      {
        KnownIn(Queue(), state, expires, stamp, now, Ptrs(head.tree), head.mem.Keys);
        PlaceStep(head.mem, head.root, c, t, expires, stamp, expires[timer]);
        parent := cur;
        if expires[timer] < expires[cur] {
          side, cur := Lf, head.mem[cur].left;
          c, t := Up(Lf, t.ptr, t.color, t.r, c), t.l;
        } else {
          side, cur := Rt, head.mem[cur].right;
          c, t := Up(Rt, t.ptr, t.color, t.l, c), t.r;
        }
      }
    }

    /** `add_timer`; returns whether the timer is now the first one. */
    method AddTimer(timer: Ptr) returns (first: bool)
      requires Valid() && timer in state && timer in expires
      modifies this`next, this`state, this`stamp, this`now, head
      ensures Valid() && state.Keys == old(state).Keys
      ensures old(state[timer]) != Inactive ==>
        !first && state == old(state) && next == old(next) && Queue() == old(Queue())
      ensures old(state[timer]) == Inactive ==>
        && state == old(state)[timer := Enqueued] && first == (next == timer)
        && (forall p | p in old(Queue()) :: p in expires)
        && Queue() == Enqueue(old(Queue()), expires, timer)
        && (first || next == old(next))
    {
      hide RepContext, DistinctContext, Distinct, Before, After, ContextPtrs, Ptrs, InOrder, RedBlack, BlackHeight,
        Rep, Fill, Known, InOrderOfExpiry, Edge, Between, IsRbTree, Without, NeighbourIn, SuccIn, PredIn, Enqueue, Idle;
      if state[timer] != Inactive {
        return false;
      }
      ghost var q := Queue();
      var parent, side;
      ghost var c;
      parent, side, c := FindPlace(timer);
      AddedQueue(head.tree, c, timer, state, expires, stamp, now, head.mem.Keys, next);
      ghost var mem, inTree := head.mem, Ptrs(head.tree);
      ghost var rounds := head.Insert(timer, parent, side, c);
      IdleInserted(mem, head.mem, state, inTree, timer);
      if next == 0 || expires[timer] < expires[next] {
        next := timer;
      }
      state := state[timer := Enqueued];
      stamp := stamp[timer := now];
      now := now + 1;
      first := timer == next;
    }

    /** `del_timer`; returns whether the timer was the first one. */
    method DelTimer(timer: Ptr) returns (first: bool)
      requires Valid() && timer in state
      modifies this`next, this`state, head
      ensures Valid() && state.Keys == old(state).Keys
      ensures old(state[timer]) != Enqueued ==>
        !first && state == old(state) && next == old(next) && Queue() == old(Queue())
      ensures old(state[timer]) == Enqueued ==>
        && state == old(state)[timer := Inactive] && first == (old(next) == timer)
        && Queue() == Without(old(Queue()), timer)
        && (first || next == old(next))
    {
      hide RepContext, DistinctContext, Distinct, Before, After, ContextPtrs, Ptrs, InOrder, RedBlack, BlackHeight,
        Rep, Fill, Known, InOrderOfExpiry, Edge, Between, IsRbTree, Without, SuccIn, PredIn, Enqueue, Idle;
      if state[timer] != Enqueued {
        return false;
      }
      first := false;
      RemovedQueue(head.tree, timer, state, expires, stamp, now, head.mem.Keys, next);
      if next == timer {
        ghost var rounds;
        next, rounds := head.Neighbour(timer, Rt);
        first := true;
      }
      ghost var mem, inTree := head.mem, Ptrs(head.tree);
      ghost var climbs := head.Erase(timer);
      IdleErased(mem, head.mem, state, inTree, timer);
      head.Clear(timer);
      state := state[timer := Inactive];
    }

    /**
     `timer_forward`: a new expiry.  The tree is not touched, so a timer that is in the queue must
     still fit between its neighbours.
     */
    method Forward(timer: Ptr, e: Ktime)
      requires Valid() && timer in state
      modifies this`expires
      ensures expires == old(expires)[timer := e] && (Valid() <==> Fits(Queue(), expires, stamp, timer))
      ensures state[timer] != Enqueued ==> Valid() && timer != next && timer !in Queue()
      ensures old(Armed()) && timer != next ==> Armed()
    {
      hide Ptrs, InOrder, Edge, InOrderOfExpiry, IsRbTree, Idle;
      ForwardKnown(Queue(), state, expires, stamp, now, Ptrs(head.tree), head.mem.Keys, timer, e);
      ForwardFits(Queue(), expires, stamp, timer, e);
      expires := expires[timer := e];
    }

    /** Ask the clock event device for the first timer, if there is one. */
    method AskNext()
      requires Valid()
      modifies this`asked
      ensures Valid() && Armed()
    {
      hide Ptrs, InOrder, InOrderOfExpiry, IsRbTree, Idle;
      FirstKnown(Queue(), state, expires, stamp, now, Ptrs(head.tree), head.mem.Keys);
      if next != 0 {
        asked := expires[next];
      }
    }

    /** `timer_cancel` */
    method Cancel(timer: Ptr)
      requires Valid() && timer in state
      modifies this`next, this`state, this`asked, head
      ensures Valid() && (old(Armed()) ==> Armed())
      ensures Queue() == if old(state[timer]) == Enqueued then Without(old(Queue()), timer) else old(Queue())
      ensures state == if old(state[timer]) == Enqueued then old(state)[timer := Inactive] else old(state)
    {
      var first := DelTimer(timer);
      if first {
        AskNext();
      }
    }

    /** `timer_start` */
    method Start(timer: Ptr, time: Ktime, interval: Ktime)
      requires Valid() && timer in state
      modifies this, head
      ensures Valid() && (old(Armed()) ==> Armed())
      ensures expires == old(expires)[timer := AddSafe(time, interval)]
      ensures old(state[timer]) == Callback ==> Queue() == old(Queue()) && state == old(state)
      ensures old(state[timer]) != Callback ==>
        && state == old(state)[timer := Enqueued]
        && var rest := if old(state[timer]) == Enqueued then Without(old(Queue()), timer) else old(Queue());
           AllIn(rest, expires) && Queue() == Enqueue(rest, expires, timer)
    {
      hide Ptrs, InOrder, Edge, InOrderOfExpiry, IsRbTree, Without, Enqueue, Known, Idle;
      Cancel(timer);
      Forward(timer, AddSafe(time, interval));
      KnownIn(Queue(), state, expires, stamp, now, Ptrs(head.tree), head.mem.Keys);
      var first := AddTimer(timer);
      if first {
        asked := expires[timer];
      }
    }

    /** The calls of a callback, made while its own timer is marked as such */
    method Make(calls: seq<Call>, ghost own: Ptr)
      requires Valid() && OnlyCallback(state, own) && own !in Queue() && AllIn(Queue(), expires)
      requires forall c | c in calls :: c.timer in state
      modifies this, head
      ensures Valid() && OnlyCallback(state, own) && own !in Queue() && state.Keys == old(state).Keys
      ensures AllIn(Queue(), expires) && (Queue(), expires) == CalledAll(old(Queue()), old(expires), own, calls)
    {
      hide Ptrs, InOrder, Edge, InOrderOfExpiry, IsRbTree, Enqueue, Known, Idle, Without, CalledAll, AllIn;
      CalledNone(Queue(), expires, own);
      assert calls[..0] == [];
      for i := 0 to |calls|
        invariant Valid() && OnlyCallback(state, own) && own !in Queue() && state.Keys == old(state).Keys
        invariant AllIn(Queue(), expires)
        invariant (Queue(), expires) == CalledAll(old(Queue()), old(expires), own, calls[..i])
      {
        ghost var q, x := Queue(), expires;
        var c := calls[i];
        MarkedIn(q, state, expires, stamp, now, Ptrs(head.tree), head.mem.Keys, own, c.timer);
        match c {
          case Start(t, time, interval) => Start(t, time, interval);
          case Cancel(t) => Cancel(t);
        }
        CalledStep(old(Queue()), old(expires), own, calls, i, q, x, Queue(), expires);
        KnownIn(Queue(), state, expires, stamp, now, Ptrs(head.tree), head.mem.Keys);
        OwnOut(Queue(), state, expires, stamp, now, Ptrs(head.tree), head.mem.Keys, own);
      }
      assert calls[..|calls|] == calls;
    }

    /** One round of the handler: the first timer leaves the queue, runs, and may come back. */
    method FireOne(outcome: Outcome) returns (timer: Ptr)
      requires Valid() && next != 0 && Calm(state) && AllIn(Queue(), expires)
      requires forall c | c in outcome.calls :: c.timer in state
      modifies this, head
      ensures Valid() && Calm(state) && state.Keys == old(state).Keys && old(Queue()) != [] && timer == old(Queue())[0]
      ensures AllIn(Queue(), expires) && (Queue(), expires) == Round(old(Queue()), old(expires), outcome)
    {
      hide Ptrs, InOrder, InOrderOfExpiry, IsRbTree, Enqueue, AllIn, Known, Idle, CalledAll;
      FirstKnown(Queue(), state, expires, stamp, now, Ptrs(head.tree), head.mem.Keys);
      timer := next;
      var first := DelTimer(timer);
      CallbackKeeps(Queue(), state, expires, stamp, now, Ptrs(head.tree), head.mem.Keys, timer);
      IdleState(head.mem, state, Ptrs(head.tree), timer, Callback);
      state := state[timer := Callback];
      OwnOut(Queue(), state, expires, stamp, now, Ptrs(head.tree), head.mem.Keys, timer);
      KnownIn(Queue(), state, expires, stamp, now, Ptrs(head.tree), head.mem.Keys);
      Make(outcome.calls, timer);
      Forward(timer, outcome.expires);
      CallbackKeeps(Queue(), state, expires, stamp, now, Ptrs(head.tree), head.mem.Keys, timer);
      IdleState(head.mem, state, Ptrs(head.tree), timer, Inactive);
      state := state[timer := Inactive];
      KnownIn(Queue(), state, expires, stamp, now, Ptrs(head.tree), head.mem.Keys);
      if outcome.restart {
        var again := AddTimer(timer);
        KnownIn(Queue(), state, expires, stamp, now, Ptrs(head.tree), head.mem.Keys);
      }
    }

    /**
     `timer_event_handler`; `script(k)` is what the `k`th callback of this call does.  Callbacks may
     start and cancel any timers and may catch up with restarts that are due at once, as long as the
     replay on the list ends, after `last` rounds at most (`HandlerEnds`, `CallsEnd`, `LeavesOff`).
     */
    method EventHandler(time: Ktime, script: nat -> Outcome, ghost last: nat) returns (fired: seq<Ptr>)
      requires Valid() && Calm(state) && Ended(Played(Queue(), expires, script, last), time)
      requires forall k, c | c in script(k).calls :: c.timer in state
      modifies this, head
      ensures Valid() && Armed() && Calm(state) && AllIn(old(Queue()), old(expires)) && |fired| <= last
      ensures Played(old(Queue()), old(expires), script, |fired|) == (Queue(), expires)
      ensures FiredFirst(fired, old(Queue()), old(expires), script, time)
      ensures forall p | p in Queue() :: p in expires && time < expires[p]
      ensures Alone(script) ==>
        |fired| == |Due(old(Queue()), old(expires), time)| + CatchUps(script, time, |fired|)
      ensures Alone(script) && Past(script, time) ==>
        fired == Due(old(Queue()), old(expires), time)
          && Fired(fired, Queue(), expires, old(Queue()), old(expires), script)
    {
      hide Ptrs, InOrder, Edge, InOrderOfExpiry, IsRbTree, Without, Enqueue, Known, AllIn, Due, Played, Round,
        FiredFirst, Fired, Past, CatchUps, Alone, Idle, Calm;
      fired := [];
      KnownIn(Queue(), state, expires, stamp, now, Ptrs(head.tree), head.mem.Keys);
      FirstKnown(Queue(), state, expires, stamp, now, Ptrs(head.tree), head.mem.Keys);
      PlayStart(Queue(), expires, script, time);
      while next != 0 && expires[next] <= time
        invariant Valid() && Calm(state) && state.Keys == old(state).Keys
        invariant AllIn(Queue(), expires) && AllIn(old(Queue()), old(expires))
        invariant next != 0 ==> next in expires && next in state
        invariant Played(old(Queue()), old(expires), script, |fired|) == (Queue(), expires)
        invariant FiredFirst(fired, old(Queue()), old(expires), script, time)
        invariant |fired| <= last
        decreases last - |fired|
      {
        ghost var q, x := Queue(), expires;
        FirstKnown(q, state, x, stamp, now, Ptrs(head.tree), head.mem.Keys);
        FirstDue(q, x, time);
        var timer := FireOne(script(|fired|));
        PlayStep(fired, q, x, old(Queue()), old(expires), time, script);
        fired := fired + [timer];
        FirstKnown(Queue(), state, expires, stamp, now, Ptrs(head.tree), head.mem.Keys);
      }
      FirstKnown(Queue(), state, expires, stamp, now, Ptrs(head.tree), head.mem.Keys);
      NoneDue(Queue(), expires, stamp, time);
      OrderNoDup(old(Queue()), old(expires), old(stamp));
      if Alone(script) {
        PlayedCount(fired, old(Queue()), old(expires), time, script);
        if Past(script, time) {
          PlayedPast(fired, old(Queue()), old(expires), time, script);
        }
      }
      AskNext();
    }

    constructor ()
      ensures Valid() && Armed() && Queue() == [] && fresh(head)
    {
      head := new RbRoot();
      next, state, expires, asked, stamp, now := 0, map[], map[], 0, map[], 0;
    }
  }

  /** Exactly the timers in the tree are marked as enqueued, and they were added before `now`. */
  ghost predicate Known(q: seq<Ptr>, state: map<Ptr, TimerState>, expires: map<Ptr, Ktime>, stamp: map<Ptr, nat>,
                        now: nat,
                        nodes: set<Ptr>, mem: set<Ptr>) {
    && (forall p :: p in q <==> p in nodes)
    && (forall p :: p in nodes <==> p in state && state[p] == Enqueued)
    && (forall p | p in nodes :: p in expires && p in stamp && stamp[p] < now && p in mem)
    && 0 !in state
  }

  /** All timers before the hole expire no later than `e`, all behind it later. */
  ghost predicate Between(c: Context, expires: map<Ptr, Ktime>, e: Ktime) {
    && (forall p | p in Before(c) :: p in expires && expires[p] <= e)
    && (forall p | p in After(c) :: p in expires && e < expires[p])
  }

  lemma {:induction false} PlaceStart(h: Heap, root: Ptr, t: Tree, expires: map<Ptr, Ktime>, e: Ktime)
    requires IsRbTree(h, root, t) && 0 !in h
    ensures Fill(Top, t) == t && Root(t) == root && (root == 0 <==> t.Leaf?) && Between(Top, expires, e)
  {
    RootInPtrs(t);
  }

  lemma {:induction false} PlaceStep(h: Heap, root: Ptr, c: Context, t: Tree, expires: map<Ptr, Ktime>,
                                     stamp: map<Ptr, nat>, e: Ktime)
    requires 0 !in h && IsRbTree(h, root, Fill(c, t)) && t.Node? && Between(c, expires, e)
    requires InOrderOfExpiry(InOrder(Fill(c, t)), expires, stamp) && AllIn(InOrder(Fill(c, t)), expires)
    ensures t.ptr in h && h[t.ptr].left == Root(t.l) && h[t.ptr].right == Root(t.r) && t.ptr in expires
    ensures (Root(t.l) == 0 <==> t.l.Leaf?) && (Root(t.r) == 0 <==> t.r.Leaf?)
    ensures Fill(Up(Lf, t.ptr, t.color, t.r, c), t.l) == Fill(c, t)
      && Fill(Up(Rt, t.ptr, t.color, t.l, c), t.r) == Fill(c, t)
    ensures e < expires[t.ptr] ==> Between(Up(Lf, t.ptr, t.color, t.r, c), expires, e)
    ensures expires[t.ptr] <= e ==> Between(Up(Rt, t.ptr, t.color, t.l, c), expires, e)
  {
    hide RepContext, DistinctContext, Distinct, ContextPtrs, Ptrs, RedBlack, BlackHeight;
    SplitRep(h, root, 0, c, t);
    PlaceCell(h, Above(c, 0), t);
    FillInOrder(c, t);
    assert InOrder(Fill(c, t)) == Before(c) + (InOrder(t.l) + [t.ptr] + InOrder(t.r)) + After(c);
    PlaceOrder(Before(c), InOrder(t.l), t.ptr, InOrder(t.r), After(c), expires, stamp);
  }

  lemma {:induction false} PlaceCell(h: Heap, par: Ptr, t: Tree)
    requires 0 !in h && Rep(h, par, t) && t.Node?
    ensures t.ptr in h && h[t.ptr].left == Root(t.l) && h[t.ptr].right == Root(t.r)
    ensures (Root(t.l) == 0 <==> t.l.Leaf?) && (Root(t.r) == 0 <==> t.r.Leaf?)
  {
  }

  lemma {:induction false} PlaceOrder(a: seq<Ptr>, l: seq<Ptr>, x: Ptr, r: seq<Ptr>, b: seq<Ptr>,
                                      expires: map<Ptr, Ktime>, stamp: map<Ptr, nat>)
    requires var s := a + (l + [x] + r) + b; InOrderOfExpiry(s, expires, stamp) && AllIn(s, expires)
    ensures x in expires
    ensures forall p | p in r :: p in expires && expires[x] <= expires[p]
    ensures forall p | p in l :: p in expires && expires[p] <= expires[x]
  {
    var s, m := a + (l + [x] + r) + b, |a| + |l|;
    assert s[m] == x;
    forall p | p in r ensures p in expires && expires[x] <= expires[p] {
      var k :| 0 <= k < |r| && r[k] == p;
      assert s[m + 1 + k] == p;
    }
    forall p | p in l ensures p in expires && expires[p] <= expires[x] {
      var k :| 0 <= k < |l| && l[k] == p;
      assert s[|a| + k] == p;
    }
  }

  ghost predicate AllIn(s: seq<Ptr>, m: map<Ptr, Ktime>) {
    forall p | p in s :: p in m
  }

  lemma {:induction false} KnownIn(q: seq<Ptr>, state: map<Ptr, TimerState>, expires: map<Ptr, Ktime>,
                                   stamp: map<Ptr, nat>, now: nat,
                                   nodes: set<Ptr>, mem: set<Ptr>)
    requires Known(q, state, expires, stamp, now, nodes, mem)
    ensures AllIn(q, expires)
  {
  }

  lemma {:induction false} AddedQueue(tree: Tree, c: Context, x: Ptr, state: map<Ptr, TimerState>,
                                      expires: map<Ptr, Ktime>, stamp: map<Ptr, nat>,
                                      now: nat, mem: set<Ptr>, next: Ptr)
    requires Fill(c, Leaf) == tree && x in expires && x in state && state[x] == Inactive
      && Between(c, expires, expires[x])
    requires Known(InOrder(tree), state, expires, stamp, now, Ptrs(tree), mem)
    requires InOrderOfExpiry(InOrder(tree), expires, stamp) && next == Edge(InOrder(tree), Lf)
    ensures x != 0 && x !in Ptrs(tree) && AllIn(InOrder(tree), expires)
    ensures var q := Before(c) + [x] + After(c);
      && q == Enqueue(InOrder(tree), expires, x)
      && Known(q, state[x := Enqueued], expires, stamp[x := now], now + 1, Ptrs(tree) + {x}, mem + {x})
      && InOrderOfExpiry(q, expires, stamp[x := now])
      && (next != 0 ==> next in expires)
      && (if next == 0 || expires[x] < expires[next] then x else next) == Edge(q, Lf)
  {
    hide Fill, Ptrs, InOrderOfExpiry, Before, After;
    FillInOrder(c, Leaf);
    var a, b := Before(c), After(c);
    assert InOrder(tree) == a + b;
    hide InOrder;
    AddedSeq(a, b, x, state, expires, stamp, now, Ptrs(tree), mem, next);
  }

  lemma {:induction false} AddedSeq(a: seq<Ptr>, b: seq<Ptr>, x: Ptr, state: map<Ptr, TimerState>,
                                    expires: map<Ptr, Ktime>, stamp: map<Ptr, nat>,
                                    now: nat, nodes: set<Ptr>, mem: set<Ptr>, next: Ptr)
    requires x in expires && x in state && state[x] == Inactive
    requires (forall p | p in a :: p in expires && expires[p] <= expires[x])
      && (forall p | p in b :: p in expires && expires[x] < expires[p])
    requires Known(a + b, state, expires, stamp, now, nodes, mem)
    requires InOrderOfExpiry(a + b, expires, stamp) && next == Edge(a + b, Lf)
    ensures x != 0 && x !in nodes && AllIn(a + b, expires)
    ensures var q := a + [x] + b;
      && q == Enqueue(a + b, expires, x)
      && Known(q, state[x := Enqueued], expires, stamp[x := now], now + 1, nodes + {x}, mem + {x})
      && InOrderOfExpiry(q, expires, stamp[x := now])
      && (next != 0 ==> next in expires)
      && (if next == 0 || expires[x] < expires[next] then x else next) == Edge(q, Lf)
  {
    hide InOrderOfExpiry, Enqueue;
    EnqueueAt(a, b, expires, x);
    assert forall p :: p in a + b <==> p in a || p in b;
    AddedOrder(a, x, b, expires, stamp, now);
    if a != [] { assert a[0] in a + b; } else if b != [] { assert b[0] in a + b; }
  }

  lemma {:induction false} AddedOrder(a: seq<Ptr>, x: Ptr, b: seq<Ptr>, expires: map<Ptr, Ktime>,
                                      stamp: map<Ptr, nat>, now: nat)
    requires InOrderOfExpiry(a + b, expires, stamp) && x in expires && x !in a && x !in b
    requires forall p | p in a + b :: p in expires && p in stamp && stamp[p] < now
    requires (forall p | p in a :: expires[p] <= expires[x]) && (forall p | p in b :: expires[x] < expires[p])
    ensures InOrderOfExpiry(a + [x] + b, expires, stamp[x := now])
  {
    var q, s := a + [x] + b, a + b;
    forall i, j | 0 <= i < j < |q| ensures Earlier(expires, stamp[x := now], q[i], q[j]) {
      if i == |a| {
        assert q[j] == b[j - |a| - 1] && q[j] in b && q[j] in s;
      } else if j == |a| {
        assert q[i] == a[i] && q[i] in a && q[i] in s;
      } else {
        var i', j' := if i < |a| then i else i - 1, if j < |a| then j else j - 1;
        assert q[i] == s[i'] && q[j] == s[j'];
        assert Earlier(expires, stamp, s[i'], s[j']);
      }
    }
  }

  lemma {:induction false} RemovedQueue(tree: Tree, x: Ptr, state: map<Ptr, TimerState>, expires: map<Ptr, Ktime>,
                                        stamp: map<Ptr, nat>,
                                        now: nat, mem: set<Ptr>, next: Ptr)
    requires x in state && state[x] == Enqueued
    requires Known(InOrder(tree), state, expires, stamp, now, Ptrs(tree), mem)
    requires InOrderOfExpiry(InOrder(tree), expires, stamp) && next == Edge(InOrder(tree), Lf)
    ensures x in Ptrs(tree) && x in mem
    ensures var q := Without(InOrder(tree), x);
      && Known(q, state[x := Inactive], expires, stamp, now, Ptrs(tree) - {x}, mem)
      && InOrderOfExpiry(q, expires, stamp)
      && (if next == x then NeighbourIn(InOrder(tree), x, Rt) else next) == Edge(q, Lf)
  {
    hide InOrder, Ptrs, InOrderOfExpiry, NeighbourIn, Without;
    var s := InOrder(tree);
    var k :| 0 <= k < |s| && s[k] == x;
    var a, b := s[..k], s[k + 1..];
    assert s == a + [x] + b;
    RemovedOrder(a, x, b, expires, stamp);
    WithoutAt(a, x, b);
    NeighbourAt(a, x, b, Rt);
    assert forall p :: p in s <==> p in a || p == x || p in b;
  }

  lemma {:induction false} RemovedOrder(a: seq<Ptr>, x: Ptr, b: seq<Ptr>, expires: map<Ptr, Ktime>,
                                        stamp: map<Ptr, nat>)
    requires InOrderOfExpiry(a + [x] + b, expires, stamp)
    ensures x !in a && x !in b && InOrderOfExpiry(a + b, expires, stamp)
  {
    var s, q, k := a + [x] + b, a + b, |a|;
    forall i | 0 <= i < |s| && i != k ensures s[i] != x {
      assert s[k] == x;
      if i < k { assert Earlier(expires, stamp, s[i], s[k]); } else { assert Earlier(expires, stamp, s[k], s[i]); }
    }
    forall p | p in a ensures p != x { var i :| 0 <= i < |a| && a[i] == p; assert s[i] == p; }
    forall p | p in b ensures p != x { var i :| 0 <= i < |b| && b[i] == p; assert s[k + 1 + i] == p; }
    forall i, j | 0 <= i < j < |q| ensures Earlier(expires, stamp, q[i], q[j]) {
      var i', j' := if i < k then i else i + 1, if j < k then j else j + 1;
      assert q[i] == s[i'] && q[j] == s[j'];
    }
  }

  lemma {:induction false} ForwardKnown(q: seq<Ptr>, state: map<Ptr, TimerState>, expires: map<Ptr, Ktime>,
                                        stamp: map<Ptr, nat>, now: nat,
                                        nodes: set<Ptr>, mem: set<Ptr>, x: Ptr, e: Ktime)
    requires Known(q, state, expires, stamp, now, nodes, mem) && x in state
    ensures Known(q, state, expires[x := e], stamp, now, nodes, mem)
    ensures state[x] != Enqueued ==> x !in q && x != Edge(q, Lf) && Fits(q, expires[x := e], stamp, x)
  {
  }

  /** The timer comes after the one before it and before the one after it. */
  ghost predicate Fits(q: seq<Ptr>, expires: map<Ptr, Ktime>, stamp: map<Ptr, nat>, x: Ptr) {
    forall i | 0 <= i < |q| && q[i] == x ::
      (i > 0 ==> Earlier(expires, stamp, q[i - 1], q[i])) && (i + 1 < |q| ==> Earlier(expires, stamp, q[i], q[i + 1]))
  }

  /** A new expiry keeps the whole queue in order if and only if the timer still fits between its neighbours. */
  lemma {:induction false} ForwardFits(q: seq<Ptr>, expires: map<Ptr, Ktime>, stamp: map<Ptr, nat>, x: Ptr, e: Ktime)
    requires InOrderOfExpiry(q, expires, stamp)
    ensures InOrderOfExpiry(q, expires[x := e], stamp) <==> Fits(q, expires[x := e], stamp, x)
  {
    var y := expires[x := e];
    if Fits(q, y, stamp, x) {
      forall i, j | 0 <= i < j < |q| ensures Earlier(y, stamp, q[i], q[j]) {
        assert Earlier(expires, stamp, q[i], q[j]);
        if q[j] == x && i < j - 1 {
          assert Earlier(expires, stamp, q[i], q[j - 1]) && Earlier(expires, stamp, q[j - 1], q[j]);
          assert Earlier(y, stamp, q[j - 1], q[j]);
        }
        if q[i] == x && i + 1 < j {
          assert Earlier(expires, stamp, q[i], q[i + 1]) && Earlier(expires, stamp, q[i + 1], q[j]);
          assert Earlier(y, stamp, q[i], q[i + 1]);
        }
      }
    }
  }

  /** A timer forwarded past the next one stays before it in the tree. */
  lemma {:induction false} ForwardCanFail()
    ensures var x, stamp := map[1 := 5, 2 := 7], map[1 := 0, 2 := 1];
      InOrderOfExpiry([1, 2], x, stamp) && !InOrderOfExpiry([1, 2], x[1 := 9], stamp)
  {
    var x: map<Ptr, Ktime>, stamp: map<Ptr, nat> := map[1 := 9, 2 := 7], map[1 := 0, 2 := 1];
    var q: seq<Ptr> := [1, 2];
    assert map[1 := 5, 2 := 7][1 := 9] == x;
    assert !Earlier(x, stamp, q[0], q[1]);
  }

  lemma {:induction false} FirstKnown(q: seq<Ptr>, state: map<Ptr, TimerState>, expires: map<Ptr, Ktime>,
                                      stamp: map<Ptr, nat>, now: nat,
                                      nodes: set<Ptr>, mem: set<Ptr>)
    requires Known(q, state, expires, stamp, now, nodes, mem)
    ensures q != [] ==> Edge(q, Lf) == q[0] && q[0] != 0 && q[0] in expires && q[0] in state && state[q[0]] == Enqueued
    ensures q == [] ==> Edge(q, Lf) == 0
    ensures q != [] ==> Without(q, q[0]) == q[1..]
  {
    if q != [] { assert q[0] in q; }
  }

  /** The timers at the front of the queue that have expired. */
  ghost function Due(q: seq<Ptr>, expires: map<Ptr, Ktime>, time: Ktime): seq<Ptr>
    requires AllIn(q, expires)
  {
    if q == [] || time < expires[q[0]] then [] else [q[0]] + Due(q[1..], expires, time)
  }

  lemma {:induction false} InitKeeps(q: seq<Ptr>, state: map<Ptr, TimerState>, expires: map<Ptr, Ktime>,
                                     stamp: map<Ptr, nat>, now: nat,
                                     nodes: set<Ptr>, mem: set<Ptr>, x: Ptr)
    requires Known(q, state, expires, stamp, now, nodes, mem) && InOrderOfExpiry(q, expires, stamp)
    requires x != 0 && x !in q
    ensures x !in nodes && x != Edge(q, Lf)
    ensures Known(q, state[x := Inactive], expires[x := 0], stamp, now, nodes, mem + {x})
      && InOrderOfExpiry(q, expires[x := 0], stamp)
  {
    forall i, j | 0 <= i < j < |q| ensures Earlier(expires[x := 0], stamp, q[i], q[j]) {
      assert Earlier(expires, stamp, q[i], q[j]) && q[i] in q && q[j] in q;
    }
  }

  lemma {:induction false} CallbackKeeps(q: seq<Ptr>, state: map<Ptr, TimerState>, expires: map<Ptr, Ktime>,
                                         stamp: map<Ptr, nat>, now: nat,
                                         nodes: set<Ptr>, mem: set<Ptr>, x: Ptr)
    requires Known(q, state, expires, stamp, now, nodes, mem) && x in state && state[x] != Enqueued
    ensures Known(q, state[x := Callback], expires, stamp, now, nodes, mem)
    ensures Known(q, state[x := Inactive], expires, stamp, now, nodes, mem)
  {
  }

  /** No callback is running. */
  ghost predicate Calm(state: map<Ptr, TimerState>) {
    forall p | p in state :: state[p] != Callback
  }

  ghost predicate OnlyCallback(state: map<Ptr, TimerState>, own: Ptr) {
    own in state && forall p | p in state :: state[p] == Callback <==> p == own
  }

  /** A call on the list; the timer whose callback makes it is not in the list and cannot be started. */
  ghost function Called(q: seq<Ptr>, x: map<Ptr, Ktime>, own: Ptr, c: Call): (seq<Ptr>, map<Ptr, Ktime>) {
    var rest := if c.timer in q then Without(q, c.timer) else q;
    match c
    case Start(t, time, interval) =>
      var x' := x[t := AddSafe(time, interval)];
      if t == own || !AllIn(rest, x') then (q, x') else (Enqueue(rest, x', t), x')
    case Cancel(t) => (rest, x)
  }

  ghost function CalledAll(q: seq<Ptr>, x: map<Ptr, Ktime>, own: Ptr, calls: seq<Call>): (seq<Ptr>, map<Ptr, Ktime>) {
    if calls == [] then (q, x)
    else var s := CalledAll(q, x, own, calls[..|calls| - 1]); Called(s.0, s.1, own, calls[|calls| - 1])
  }

  lemma {:induction false} CalledNone(q: seq<Ptr>, x: map<Ptr, Ktime>, own: Ptr)
    ensures CalledAll(q, x, own, []) == (q, x)
  {
  }

  lemma {:induction false} CalledStep(q0: seq<Ptr>, x0: map<Ptr, Ktime>, own: Ptr, calls: seq<Call>, i: nat,
                                      q: seq<Ptr>, x: map<Ptr, Ktime>, q': seq<Ptr>, x': map<Ptr, Ktime>)
    requires i < |calls| && (q, x) == CalledAll(q0, x0, own, calls[..i]) && (q', x') == Called(q, x, own, calls[i])
    ensures (q', x') == CalledAll(q0, x0, own, calls[..i + 1])
  {
    hide Called;
    assert calls[..i + 1][..i] == calls[..i];
  }

  lemma {:induction false} MarkedIn(q: seq<Ptr>, state: map<Ptr, TimerState>, expires: map<Ptr, Ktime>,
                                    stamp: map<Ptr, nat>, now: nat, nodes: set<Ptr>, mem: set<Ptr>, own: Ptr, t: Ptr)
    requires Known(q, state, expires, stamp, now, nodes, mem) && OnlyCallback(state, own) && t in state
    ensures (t in q <==> state[t] == Enqueued) && (t == own <==> state[t] == Callback)
  {
  }

  lemma {:induction false} OwnOut(q: seq<Ptr>, state: map<Ptr, TimerState>, expires: map<Ptr, Ktime>,
                                  stamp: map<Ptr, nat>, now: nat, nodes: set<Ptr>, mem: set<Ptr>, own: Ptr)
    requires Known(q, state, expires, stamp, now, nodes, mem) && own in state && state[own] == Callback
    ensures own !in q
  {
  }

  /**
   One round of the handler on the list: the first timer leaves, its callback makes its calls and
   leaves an expiry, and the timer may come back.
   */
  ghost function Round(q: seq<Ptr>, x: map<Ptr, Ktime>, r: Outcome): (seq<Ptr>, map<Ptr, Ktime>) {
    if q == [] then (q, x)
    else
      var s := CalledAll(q[1..], x, q[0], r.calls);
      var x' := s.1[q[0] := r.expires];
      (if r.restart && AllIn(s.0, x') then Enqueue(s.0, x', q[0]) else s.0, x')
  }

  /** The list after `n` rounds */
  ghost function Played(q: seq<Ptr>, x: map<Ptr, Ktime>, script: nat -> Outcome, n: nat): (seq<Ptr>, map<Ptr, Ktime>) {
    if n == 0 then (q, x) else var s := Played(q, x, script, n - 1); Round(s.0, s.1, script(n - 1))
  }

  /** In each round the timer that fires is the first of the list and has expired. */
  ghost predicate FiredFirst(fired: seq<Ptr>, q: seq<Ptr>, x: map<Ptr, Ktime>, script: nat -> Outcome, time: Ktime) {
    forall k | 0 <= k < |fired| ::
      var s := Played(q, x, script, k); s.0 != [] && fired[k] == s.0[0] && fired[k] in s.1 && s.1[fired[k]] <= time
  }

  lemma {:induction false} PlayStart(q: seq<Ptr>, x: map<Ptr, Ktime>, script: nat -> Outcome, time: Ktime)
    requires AllIn(q, x)
    ensures Played(q, x, script, 0) == (q, x) && FiredFirst([], q, x, script, time) && Fired([], q, x, q, x, script)
  {
  }

  lemma {:induction false} PlayStep(fired: seq<Ptr>, q: seq<Ptr>, x: map<Ptr, Ktime>, q0: seq<Ptr>,
                                    x0: map<Ptr, Ktime>, time: Ktime, script: nat -> Outcome)
    requires Played(q0, x0, script, |fired|) == (q, x) && FiredFirst(fired, q0, x0, script, time)
    requires q != [] && AllIn(q, x) && x[q[0]] <= time
    ensures Played(q0, x0, script, |fired + [q[0]]|) == Round(q, x, script(|fired|))
    ensures FiredFirst(fired + [q[0]], q0, x0, script, time)
  {
    hide Round;
  }

  /** What has happened after the timers `fired` ran, from queue `q0` with expiries `x0`. */
  ghost predicate Fired(fired: seq<Ptr>, q: seq<Ptr>, x: map<Ptr, Ktime>, q0: seq<Ptr>, x0: map<Ptr, Ktime>,
                        script: nat -> Outcome) {
    && (forall p | p in q :: p in q0)
    && (forall p | p in q0 && p !in fired :: p in q && p in x && p in x0 && x[p] == x0[p])
    && (forall k | 0 <= k < |fired| ::
          && fired[k] in q0 && fired[k] in x && x[fired[k]] == script(k).expires
          && (fired[k] in q <==> script(k).restart))
  }

  lemma {:induction false} EnqueueIn(q: seq<Ptr>, expires: map<Ptr, Ktime>, x: Ptr)
    requires x in expires && AllIn(q, expires)
    ensures forall p :: p in Enqueue(q, expires, x) <==> p == x || p in q
  {
    if q != [] && expires[q[0]] <= expires[x] {
      EnqueueIn(q[1..], expires, x);
      assert q == [q[0]] + q[1..];
    }
  }

  /** A timer that expires after `time` joins the queue behind all timers that are due. */
  lemma {:induction false} EnqueueDue(q: seq<Ptr>, expires: map<Ptr, Ktime>, x: Ptr, time: Ktime)
    requires x in expires && AllIn(q, expires) && time < expires[x]
    ensures AllIn(Enqueue(q, expires, x), expires)
      && Due(Enqueue(q, expires, x), expires, time) == Due(q, expires, time)
  {
    EnqueueIn(q, expires, x);
    if q != [] && expires[q[0]] <= expires[x] {
      EnqueueDue(q[1..], expires, x, time);
      assert Enqueue(q, expires, x)[1..] == Enqueue(q[1..], expires, x);
    }
  }

  /** What is due depends only on the expiries of the timers in the queue. */
  lemma {:induction false} DueForward(q: seq<Ptr>, expires: map<Ptr, Ktime>, x: Ptr, e: Ktime, time: Ktime)
    requires AllIn(q, expires) && x !in q
    ensures AllIn(q, expires[x := e]) && Due(q, expires[x := e], time) == Due(q, expires, time)
  {
    if q != [] {
      DueForward(q[1..], expires, x, e, time);
    }
  }

  lemma {:induction false} FireStep(fired: seq<Ptr>, q: seq<Ptr>, x: map<Ptr, Ktime>, q': seq<Ptr>, x': map<Ptr, Ktime>,
                                    q0: seq<Ptr>, x0: map<Ptr, Ktime>, time: Ktime, script: nat -> Outcome)
    requires Fired(fired, q, x, q0, x0, script)
    requires Past(script, time)
    requires q != [] && AllIn(q, x) && x[q[0]] <= time && q[0] !in q[1..]
    requires x' == x[q[0] := script(|fired|).expires] && AllIn(q[1..], x')
    requires q' == if script(|fired|).restart then Enqueue(q[1..], x', q[0]) else q[1..]
    ensures AllIn(q', x') && fired + Due(q, x, time) == (fired + [q[0]]) + Due(q', x', time)
      && |Due(q', x', time)| < |Due(q, x, time)|
    ensures Fired(fired + [q[0]], q', x', q0, x0, script)
  {
    hide Due, Fired, Enqueue;
    FireDue(q, x, time, script(|fired|));
    FireRecord(fired, q, x, q', x', q0, x0, time, script);
  }

  lemma {:induction false} FireDue(q: seq<Ptr>, x: map<Ptr, Ktime>, time: Ktime, r: Outcome)
    requires q != [] && AllIn(q, x) && x[q[0]] <= time && q[0] !in q[1..] && (r.restart ==> time < r.expires)
    requires AllIn(q[1..], x[q[0] := r.expires])
    ensures var x' := x[q[0] := r.expires];
      var q' := if r.restart then Enqueue(q[1..], x', q[0]) else q[1..];
      AllIn(q', x') && Due(q, x, time) == [q[0]] + Due(q', x', time)
  {
    DueForward(q[1..], x, q[0], r.expires, time);
    if r.restart { EnqueueDue(q[1..], x[q[0] := r.expires], q[0], time); }
  }

  lemma {:induction false} FireRecord(fired: seq<Ptr>, q: seq<Ptr>, x: map<Ptr, Ktime>, q': seq<Ptr>,
                                      x': map<Ptr, Ktime>,
                                      q0: seq<Ptr>, x0: map<Ptr, Ktime>, time: Ktime, script: nat -> Outcome)
    requires Fired(fired, q, x, q0, x0, script)
    requires Past(script, time)
    requires q != [] && AllIn(q, x) && x[q[0]] <= time && q[0] !in q[1..]
    requires x' == x[q[0] := script(|fired|).expires] && AllIn(q[1..], x')
    requires q' == if script(|fired|).restart then Enqueue(q[1..], x', q[0]) else q[1..]
    ensures Fired(fired + [q[0]], q', x', q0, x0, script)
  {
    hide Enqueue;
    var t, r := q[0], script(|fired|);
    assert forall p :: p in q <==> p == t || p in q[1..];
    if r.restart { EnqueueIn(q[1..], x', t); }
    assert t !in fired;
    forall k | 0 <= k < |fired + [t]| ensures
      var p := (fired + [t])[k]; p in q0 && p in x' && x'[p] == script(k).expires && (p in q' <==> script(k).restart)
    {
      if k < |fired| { assert fired[k] in fired; }
    }
  }

  lemma {:induction false} NoneDue(q: seq<Ptr>, expires: map<Ptr, Ktime>, stamp: map<Ptr, nat>, time: Ktime)
    requires AllIn(q, expires) && InOrderOfExpiry(q, expires, stamp) && (q != [] ==> time < expires[q[0]])
    ensures Due(q, expires, time) == []
    ensures forall p | p in q :: p in expires && time < expires[p]
  {
    forall p | p in q ensures p in expires && time < expires[p] {
      var i :| 0 <= i < |q| && q[i] == p;
      if i > 0 { assert Earlier(expires, stamp, q[0], q[i]); }
    }
  }

  lemma {:induction false} EnqueueDueNow(q: seq<Ptr>, expires: map<Ptr, Ktime>, x: Ptr, time: Ktime)
    requires x in expires && AllIn(q, expires) && expires[x] <= time
    ensures AllIn(Enqueue(q, expires, x), expires)
      && |Due(Enqueue(q, expires, x), expires, time)| == |Due(q, expires, time)| + 1
  {
    EnqueueIn(q, expires, x);
    if q != [] && expires[q[0]] <= expires[x] {
      EnqueueDueNow(q[1..], expires, x, time);
      assert Enqueue(q, expires, x)[1..] == Enqueue(q[1..], expires, x);
    } else {
      assert ([x] + q)[1..] == q;
    }
  }

  /** A round leaves one timer less due, unless its callback restarts with an expiry that is due at once. */
  lemma {:induction false} RoundProgress(q: seq<Ptr>, x: map<Ptr, Ktime>, time: Ktime, r: Outcome)
    requires q != [] && AllIn(q, x) && x[q[0]] <= time && q[0] !in q[1..]
    ensures var x' := x[q[0] := r.expires];
      && AllIn(q[1..], x')
      && var q' := if r.restart then Enqueue(q[1..], x', q[0]) else q[1..];
         AllIn(q', x') && |Due(q', x', time)| == |Due(q, x, time)| - if r.restart && r.expires <= time then 0 else 1
  {
    var x' := x[q[0] := r.expires];
    DueForward(q[1..], x, q[0], r.expires, time);
    if r.restart {
      if time < r.expires { EnqueueDue(q[1..], x', q[0], time); } else { EnqueueDueNow(q[1..], x', q[0], time); }
    }
  }

  // ---------------------------------------------------------------- when the handler ends

  /** Every restart moves the expiry past the time of the interrupt. */
  ghost predicate Past(script: nat -> Outcome, time: Ktime) {
    forall k :: script(k).restart ==> script(k).expires > time
  }

  /** Callbacks see to no timer but their own. */
  ghost predicate Alone(script: nat -> Outcome) {
    forall k :: script(k).calls == []
  }

  /** How many calls start a timer that is due at once */
  ghost function DueStarts(calls: seq<Call>, time: Ktime): nat {
    if calls == [] then 0
    else
      var n := |calls| - 1;
      DueStarts(calls[..n], time)
      + if calls[n].Start? && AddSafe(calls[n].time, calls[n].interval) <= time then 1 else 0
  }

  ghost predicate IsDueStart(c: Call, time: Ktime) {
    c.Start? && AddSafe(c.time, c.interval) <= time
  }

  /** Each such call counts once, and no other. */
  lemma {:induction false} DueStartsCount(calls: seq<Call>, time: Ktime)
    ensures DueStarts(calls, time) == |set i | 0 <= i < |calls| && IsDueStart(calls[i], time)|
  {
    if calls != [] {
      var n := |calls| - 1;
      var c := calls[..n];
      DueStartsCount(c, time);
      var a, b := set i | 0 <= i < |c| && IsDueStart(c[i], time), set i | 0 <= i < |calls|
        && IsDueStart(calls[i], time);
      assert b == if IsDueStart(calls[n], time) then a + {n} else a;
    }
  }

  /** How many timers a callback starts or restarts so that they are due at once */
  ghost function CatchUp(r: Outcome, time: Ktime): nat {
    DueStarts(r.calls, time) + if r.restart && r.expires <= time then 1 else 0
  }

  ghost function CatchUps(script: nat -> Outcome, time: Ktime, n: nat): nat {
    if n == 0 then 0 else CatchUps(script, time, n - 1) + CatchUp(script(n - 1), time)
  }

  lemma {:induction false} FirstDue(q: seq<Ptr>, x: map<Ptr, Ktime>, time: Ktime)
    requires AllIn(q, x) && q != []
    ensures x[q[0]] <= time <==> Due(q, x, time) != []
  {
  }

  lemma {:induction false} EnqueueNoDup(q: seq<Ptr>, expires: map<Ptr, Ktime>, x: Ptr)
    requires x in expires && AllIn(q, expires) && NoDup(q) && x !in q
    ensures NoDup(Enqueue(q, expires, x))
  {
    if q == [] || expires[x] < expires[q[0]] {
      NoDupAdd(q, x);
    } else {
      EnqueueNoDup(q[1..], expires, x);
      EnqueueIn(q[1..], expires, x);
      NoDupAdd(Enqueue(q[1..], expires, x), q[0]);
    }
  }

  ghost predicate Ended(s: (seq<Ptr>, map<Ptr, Ktime>), time: Ktime) {
    AllIn(s.0, s.1) && Due(s.0, s.1, time) == []
  }

  lemma {:induction false} RoundAlone(q: seq<Ptr>, x: map<Ptr, Ktime>, r: Outcome)
    requires q != [] && AllIn(q, x) && r.calls == []
    ensures var x' := x[q[0] := r.expires];
      AllIn(q[1..], x') && Round(q, x, r) == (if r.restart then Enqueue(q[1..], x', q[0]) else q[1..], x')
  {
    hide Enqueue;
  }

  lemma {:induction false} EndedNone(x: map<Ptr, Ktime>, time: Ktime)
    ensures Ended(([], x), time)
  {
  }

  /** While the loop runs, the number of timers due is what it was, plus the catch-ups, less the rounds. */
  lemma {:induction false} DueCount(q: seq<Ptr>, x: map<Ptr, Ktime>, script: nat -> Outcome, time: Ktime, n: nat)
    requires AllIn(q, x) && NoDup(q) && Alone(script) && forall k | 0 <= k < n :: !Ended(Played(q, x, script, k), time)
    ensures var s := Played(q, x, script, n);
      AllIn(s.0, s.1) && NoDup(s.0) && |Due(s.0, s.1, time)| + n == |Due(q, x, time)| + CatchUps(script, time, n)
  {
    hide Enqueue, Due, Round;
    if n > 0 {
      DueCount(q, x, script, time, n - 1);
      var s, r := Played(q, x, script, n - 1), script(n - 1);
      EndedNone(s.1, time);
      FirstDue(s.0, s.1, time);
      assert s.0 == [s.0[0]] + s.0[1..] && s.0[0] !in s.0[1..];
      RoundAlone(s.0, s.1, r);
      RoundProgress(s.0, s.1, time, r);
      if r.restart { EnqueueNoDup(s.0[1..], s.1[s.0[0] := r.expires], s.0[0]); }
    }
  }

  /**
   With callbacks that see to their own timers, some round finds nothing due if and only if they leave
   off catching up.
   */
  lemma {:induction false} HandlerEnds(q: seq<Ptr>, x: map<Ptr, Ktime>, script: nat -> Outcome, time: Ktime)
    requires AllIn(q, x) && NoDup(q) && Alone(script)
    ensures (exists n: nat :: Ended(Played(q, x, script, n), time)) <==>
      exists n: nat :: |Due(q, x, time)| + CatchUps(script, time, n) <= n
  {
    hide Due, Played, CatchUps, Alone, Ended;
    if n: nat :| Ended(Played(q, x, script, n), time) {
      var m := FirstEnd(q, x, script, time, n);
      DueCount(q, x, script, time, m);
      EndedDue(Played(q, x, script, m), time);
      assert |Due(q, x, time)| + CatchUps(script, time, m) <= m;
    } else {
      forall n: nat ensures |Due(q, x, time)| + CatchUps(script, time, n) > n {
        DueCount(q, x, script, time, n);
        EndedDue(Played(q, x, script, n), time);
      }
    }
  }

  lemma {:induction false} EndedDue(s: (seq<Ptr>, map<Ptr, Ktime>), time: Ktime)
    requires AllIn(s.0, s.1)
    ensures Ended(s, time) <==> |Due(s.0, s.1, time)| == 0
  {
  }

  /** The first round that finds nothing due */
  lemma {:induction false} FirstEnd(q: seq<Ptr>, x: map<Ptr, Ktime>, script: nat -> Outcome, time: Ktime,
                                    n: nat) returns (m: nat)
    requires Ended(Played(q, x, script, n), time)
    ensures m <= n && Ended(Played(q, x, script, m), time)
    ensures forall k | 0 <= k < m :: !Ended(Played(q, x, script, k), time)
  {
    hide Ended, Played;
    m := 0;
    while m < n && !Ended(Played(q, x, script, m), time)
      invariant m <= n && forall k | 0 <= k < m :: !Ended(Played(q, x, script, k), time)
    {
      m := m + 1;
    }
  }

  /** A timer that is always restarted for the time of the interrupt fires for ever. */
  lemma {:induction false} NeverEnds(p: Ptr, x: map<Ptr, Ktime>, time: Ktime, n: nat)
    requires p in x && x[p] <= time
    ensures !Ended(Played([p], x, k => Outcome([], true, time), n), time)
  {
    var script: nat -> Outcome := k => Outcome([], true, time);
    AlwaysUp(time, n);
    if Ended(Played([p], x, script, n), time) {
      var m := FirstEnd([p], x, script, time, n);
      AlwaysUp(time, m);
      DueCount([p], x, script, time, m);
    }
  }

  lemma {:induction false} AlwaysUp(time: Ktime, n: nat)
    ensures CatchUps(k => Outcome([], true, time), time, n) == n
  {
    if n > 0 { AlwaysUp(time, n - 1); }
  }

  // ---------------------------------------------------------------- callbacks that see to other timers

  ghost predicate Sorted(q: seq<Ptr>, x: map<Ptr, Ktime>) {
    AllIn(q, x) && forall i, j | 0 <= i < j < |q| :: x[q[i]] <= x[q[j]]
  }

  lemma {:induction false} ConsSorted(a: Ptr, q: seq<Ptr>, x: map<Ptr, Ktime>)
    requires a in x && Sorted(q, x) && forall p | p in q :: x[a] <= x[p]
    ensures Sorted([a] + q, x)
  {
    var s := [a] + q;
    forall i, j | 0 <= i < j < |s| ensures x[s[i]] <= x[s[j]] {
      assert s[j] == q[j - 1] && q[j - 1] in q;
    }
  }

  lemma {:induction false} EnqueueSorted(q: seq<Ptr>, x: map<Ptr, Ktime>, t: Ptr)
    requires Sorted(q, x) && t in x
    ensures Sorted(Enqueue(q, x, t), x)
  {
    if q == [] || x[t] < x[q[0]] {
      forall p | p in q ensures x[t] <= x[p] {
        var i :| 0 <= i < |q| && q[i] == p;
        assert i > 0 ==> x[q[0]] <= x[q[i]];
      }
      ConsSorted(t, q, x);
    } else {
      EnqueueSorted(q[1..], x, t);
      EnqueueIn(q[1..], x, t);
      ConsSorted(q[0], Enqueue(q[1..], x, t), x);
    }
  }

  lemma {:induction false} WithoutSorted(q: seq<Ptr>, x: map<Ptr, Ktime>, t: Ptr)
    requires Sorted(q, x) && NoDup(q) && t in q
    ensures Sorted(Without(q, t), x)
  {
    if q[0] != t {
      WithoutSorted(q[1..], x, t);
      WithoutMembers(q[1..], t);
      forall p | p in Without(q[1..], t) ensures x[q[0]] <= x[p] {
        var i :| 0 <= i < |q[1..]| && q[1..][i] == p;
        assert q[i + 1] == p;
      }
      ConsSorted(q[0], Without(q[1..], t), x);
    }
  }

  /** A timer that leaves does not make others due. */
  lemma {:induction false} DueWithout(q: seq<Ptr>, x: map<Ptr, Ktime>, t: Ptr, time: Ktime)
    requires Sorted(q, x) && NoDup(q) && t in q && AllIn(Without(q, t), x)
    ensures |Due(Without(q, t), x, time)| <= |Due(q, x, time)|
  {
    if time < x[q[0]] {
      WithoutMembers(q, t);
      if Without(q, t) != [] {
        assert Without(q, t)[0] in q;
        var i :| 0 <= i < |q| && q[i] == Without(q, t)[0];
        assert i > 0 ==> x[q[0]] <= x[q[i]];
      }
    } else if q[0] != t {
      DueWithout(q[1..], x, t, time);
      assert Without(q, t)[1..] == Without(q[1..], t);
    }
  }

  lemma {:induction false} SortedForward(q: seq<Ptr>, x: map<Ptr, Ktime>, t: Ptr, e: Ktime)
    requires Sorted(q, x) && t !in q
    ensures Sorted(q, x[t := e])
  {
  }

  /** A queue in order, with the timer whose callback runs outside */
  ghost predicate Proper(s: (seq<Ptr>, map<Ptr, Ktime>), own: Ptr) {
    Sorted(s.0, s.1) && NoDup(s.0) && own !in s.0
  }

  /** A call makes at most the timer due that it starts. */
  lemma {:induction false} CalledBound(q: seq<Ptr>, x: map<Ptr, Ktime>, own: Ptr, c: Call, time: Ktime)
    requires Proper((q, x), own)
    ensures var s := Called(q, x, own, c);
      Proper(s, own) && |Due(s.0, s.1, time)| <= |Due(q, x, time)| + DueStarts([c], time)
  {
    hide Due, Enqueue, Without, Sorted, AllIn, NoDup;
    var t := c.timer;
    var rest := if t in q then Without(q, t) else q;
    SortedIn(q, x);
    if t in q {
      WithoutSorted(q, x, t);
      WithoutMembers(q, t);
      SortedIn(rest, x);
      DueWithout(q, x, t, time);
    }
    assert [c][..0] == [];
    if c.Start? {
      var e := AddSafe(c.time, c.interval);
      SortedForward(rest, x, t, e);
      DueForward(rest, x, t, e, time);
      if t != own {
        EnqueueSorted(rest, x[t := e], t);
        EnqueueIn(rest, x[t := e], t);
        EnqueueNoDup(rest, x[t := e], t);
        if e <= time {
          EnqueueDueNow(rest, x[t := e], t, time);
        } else {
          EnqueueDue(rest, x[t := e], t, time);
        }
      }
    }
  }

  lemma {:induction false} SortedIn(q: seq<Ptr>, x: map<Ptr, Ktime>)
    requires Sorted(q, x)
    ensures AllIn(q, x)
  {
  }

  lemma {:induction false} CallsBound(q: seq<Ptr>, x: map<Ptr, Ktime>, own: Ptr, calls: seq<Call>, time: Ktime)
    requires Proper((q, x), own)
    ensures var s := CalledAll(q, x, own, calls);
      Proper(s, own) && |Due(s.0, s.1, time)| <= |Due(q, x, time)| + DueStarts(calls, time)
  {
    hide Called, Due, Sorted, NoDup;
    if calls != [] {
      var n := |calls| - 1;
      CallsBound(q, x, own, calls[..n], time);
      var s := CalledAll(q, x, own, calls[..n]);
      CalledBound(s.0, s.1, own, calls[n], time);
      assert [calls[n]][..0] == [];
      assert s == (s.0, s.1);
    }
  }

  lemma {:induction false} RoundBound(q: seq<Ptr>, x: map<Ptr, Ktime>, r: Outcome, time: Ktime)
    requires Sorted(q, x) && NoDup(q) && q != [] && x[q[0]] <= time
    ensures var s := Round(q, x, r);
      && Sorted(s.0, s.1) && NoDup(s.0)
      && |Due(s.0, s.1, time)| + 1 <= |Due(q, x, time)| + CatchUp(r, time)
  {
    hide Enqueue, CalledAll, DueStarts;
    var own := q[0];
    assert forall i | 0 <= i < |q[1..]| :: q[1..][i] == q[i + 1];
    CallsBound(q[1..], x, own, r.calls, time);
    var s := CalledAll(q[1..], x, own, r.calls);
    var x' := s.1[own := r.expires];
    SortedForward(s.0, s.1, own, r.expires);
    DueForward(s.0, s.1, own, r.expires, time);
    if r.restart {
      EnqueueSorted(s.0, x', own);
      EnqueueNoDup(s.0, x', own);
      if r.expires <= time { EnqueueDueNow(s.0, x', own, time); } else { EnqueueDue(s.0, x', own, time); }
    }
  }

  lemma {:induction false} DueBound(q: seq<Ptr>, x: map<Ptr, Ktime>, script: nat -> Outcome, time: Ktime, n: nat)
    requires Sorted(q, x) && NoDup(q) && forall k | 0 <= k < n :: !Ended(Played(q, x, script, k), time)
    ensures var s := Played(q, x, script, n);
      Sorted(s.0, s.1) && NoDup(s.0) && |Due(s.0, s.1, time)| + n <= |Due(q, x, time)| + CatchUps(script, time, n)
  {
    hide Due, Round, Sorted, NoDup, CatchUp;
    SortedIn(q, x);
    if n > 0 {
      DueBound(q, x, script, time, n - 1);
      var s := Played(q, x, script, n - 1);
      SortedIn(s.0, s.1);
      EndedDue(s, time);
      EndedNone(s.1, time);
      FirstDue(s.0, s.1, time);
      RoundBound(s.0, s.1, script(n - 1), time);
    }
  }

  /**
   Whatever timers the callbacks start and cancel: if at some point the rounds have caught up with the
   timers due at first and those started due at once, the handler has ended by then.
   */
  lemma {:induction false} CallsEnd(q: seq<Ptr>, x: map<Ptr, Ktime>, script: nat -> Outcome, time: Ktime, n: nat)
    returns (m: nat)
    requires Sorted(q, x) && NoDup(q) && |Due(q, x, time)| + CatchUps(script, time, n) <= n
    ensures m <= n && Ended(Played(q, x, script, m), time)
  {
    hide Due, Played, Sorted, NoDup, CatchUps, Ended;
    m := 0;
    while m < n && !Ended(Played(q, x, script, m), time)
      invariant m <= n && forall k | 0 <= k < m :: !Ended(Played(q, x, script, k), time)
    {
      m := m + 1;
    }
    if !Ended(Played(q, x, script, m), time) {
      DueBound(q, x, script, time, n);
      var s := Played(q, x, script, n);
      SortedIn(s.0, s.1);
      EndedDue(s, time);
    }
  }

  lemma {:induction false} CatchUpsFrom(script: nat -> Outcome, time: Ktime, late: nat, n: nat)
    requires forall k | k >= late :: CatchUp(script(k), time) == 0
    ensures CatchUps(script, time, n) <= CatchUps(script, time, late)
    decreases if n > late then n else late - n
  {
    hide CatchUp;
    if n > late {
      CatchUpsFrom(script, time, late, n - 1);
    } else if n < late {
      CatchUpsMore(script, time, n, late);
    }
  }

  lemma {:induction false} CatchUpsMore(script: nat -> Outcome, time: Ktime, m: nat, n: nat)
    requires m <= n
    ensures CatchUps(script, time, m) <= CatchUps(script, time, n)
    decreases n
  {
    hide CatchUp;
    if m < n { CatchUpsMore(script, time, m, n - 1); }
  }

  /** If only the first `late` callbacks start timers that are due at once, the handler ends. */
  lemma {:induction false} LeavesOff(q: seq<Ptr>, x: map<Ptr, Ktime>, script: nat -> Outcome, time: Ktime, late: nat)
    returns (m: nat)
    requires Sorted(q, x) && NoDup(q) && forall k | k >= late :: CatchUp(script(k), time) == 0
    ensures m <= |Due(q, x, time)| + CatchUps(script, time, late) && Ended(Played(q, x, script, m), time)
  {
    hide Due, Played, Sorted, NoDup, CatchUps, Ended, CatchUp;
    SortedIn(q, x);
    var last := |Due(q, x, time)| + CatchUps(script, time, late);
    CatchUpsFrom(script, time, late, last);
    m := CallsEnd(q, x, script, time, last);
  }

  /** The queue in memory is in order, so what is said of lists in order holds of it. */
  lemma {:induction false} OrderNoDup(q: seq<Ptr>, x: map<Ptr, Ktime>, stamp: map<Ptr, nat>)
    requires InOrderOfExpiry(q, x, stamp) && AllIn(q, x)
    ensures Sorted(q, x) && NoDup(q)
  {
    forall i, j | 0 <= i < j < |q| ensures q[i] != q[j] && x[q[i]] <= x[q[j]] {
      assert Earlier(x, stamp, q[i], q[j]);
    }
  }

  // ---------------------------------------------------------------- callbacks that see to their own timers

  lemma {:induction false} FiredBusy(fired: seq<Ptr>, q: seq<Ptr>, x: map<Ptr, Ktime>, time: Ktime,
                                     script: nat -> Outcome)
    requires FiredFirst(fired, q, x, script, time)
    ensures forall k | 0 <= k < |fired| :: !Ended(Played(q, x, script, k), time)
  {
    hide Played;
    forall k | 0 <= k < |fired| ensures !Ended(Played(q, x, script, k), time) {
      var s := Played(q, x, script, k);
      if AllIn(s.0, s.1) { FirstDue(s.0, s.1, time); }
    }
  }

  lemma {:induction false} PlayedCount(fired: seq<Ptr>, q: seq<Ptr>, x: map<Ptr, Ktime>, time: Ktime,
                                       script: nat -> Outcome)
    requires FiredFirst(fired, q, x, script, time) && AllIn(q, x) && NoDup(q) && Alone(script)
    requires Ended(Played(q, x, script, |fired|), time)
    ensures |fired| == |Due(q, x, time)| + CatchUps(script, time, |fired|)
  {
    hide Played, FiredFirst, Alone, Due, Ended;
    FiredBusy(fired, q, x, time, script);
    DueCount(q, x, script, time, |fired|);
    EndedDue(Played(q, x, script, |fired|), time);
  }

  /** If no restart is due at once, exactly the timers that were due fire, in the order of the queue. */
  lemma {:induction false} PlayedPast(fired: seq<Ptr>, q: seq<Ptr>, x: map<Ptr, Ktime>, time: Ktime,
                                      script: nat -> Outcome)
    requires FiredFirst(fired, q, x, script, time) && AllIn(q, x) && NoDup(q) && Alone(script) && Past(script, time)
    requires Ended(Played(q, x, script, |fired|), time)
    ensures var s := Played(q, x, script, |fired|);
      fired == Due(q, x, time) && Fired(fired, s.0, s.1, q, x, script)
  {
    hide Played, Round, FiredFirst, Alone, Past, Due, Ended, NoDup, AllIn, Fired, Enqueue;
    FiredBusy(fired, q, x, time, script);
    PlayStart(q, x, script, time);
    assert fired[..0] == [] && [] + Due(q, x, time) == Due(q, x, time);
    var i := 0;
    while i < |fired|
      invariant 0 <= i <= |fired|
      invariant var s := Played(q, x, script, i);
        && AllIn(s.0, s.1) && fired[..i] + Due(s.0, s.1, time) == Due(q, x, time)
        && Fired(fired[..i], s.0, s.1, q, x, script)
    {
      PastStep(fired, q, x, time, script, i);
      i := i + 1;
    }
    assert fired[..|fired|] == fired;
    var s := Played(q, x, script, |fired|);
    EndedDue(s, time);
    assert fired + Due(s.0, s.1, time) == fired;
  }

  lemma {:induction false} PastStep(fired: seq<Ptr>, q: seq<Ptr>, x: map<Ptr, Ktime>, time: Ktime,
                                    script: nat -> Outcome, i: nat)
    requires FiredFirst(fired, q, x, script, time) && AllIn(q, x) && NoDup(q) && Alone(script) && Past(script, time)
    requires i < |fired| && forall k | 0 <= k < |fired| :: !Ended(Played(q, x, script, k), time)
    requires var s := Played(q, x, script, i);
      && AllIn(s.0, s.1) && fired[..i] + Due(s.0, s.1, time) == Due(q, x, time)
      && Fired(fired[..i], s.0, s.1, q, x, script)
    ensures var s := Played(q, x, script, i + 1);
      && AllIn(s.0, s.1) && fired[..i + 1] + Due(s.0, s.1, time) == Due(q, x, time)
      && Fired(fired[..i + 1], s.0, s.1, q, x, script)
  {
    hide Round, Due, Ended, Fired, Enqueue, Past;
    DueCount(q, x, script, time, i);
    var s, r := Played(q, x, script, i), script(i);
    var p := s.0[0];
    assert s.0 == [p] + s.0[1..] && p !in s.0[1..];
    RoundAlone(s.0, s.1, r);
    var s' := Played(q, x, script, i + 1);
    assert s' == Round(s.0, s.1, r);
    assert fired[..i + 1] == fired[..i] + [p];
    FireStep(fired[..i], s.0, s.1, s'.0, s'.1, q, x, time, script);
  }

  // ---------------------------------------------------------------- cleared nodes

  lemma {:induction false} IdleInit(mem: Heap, state: map<Ptr, TimerState>, inTree: set<Ptr>, timer: Ptr)
    requires Idle(mem, state, inTree)
    ensures Idle(mem[timer := RbNode(0, 0, timer, Red)], state[timer := Inactive], inTree)
  {
  }

  lemma {:induction false} IdleState(mem: Heap, state: map<Ptr, TimerState>, inTree: set<Ptr>, timer: Ptr,
                                     s: TimerState)
    requires Idle(mem, state, inTree) && timer in state
    ensures Idle(mem, state[timer := s], inTree)
  {
  }

  lemma {:induction false} IdleInserted(mem: Heap, mem': Heap, state: map<Ptr, TimerState>, inTree: set<Ptr>,
                                        timer: Ptr)
    requires Idle(mem, state, inTree) && timer in state
    requires forall p | p in mem && p !in inTree + {timer} :: p in mem' && mem'[p] == mem[p]
    ensures Idle(mem', state[timer := Enqueued], inTree + {timer})
  {
  }

  lemma {:induction false} IdleErased(mem: Heap, mem': Heap, state: map<Ptr, TimerState>, inTree: set<Ptr>, timer: Ptr)
    requires Idle(mem, state, inTree) && timer in state && timer in mem'
    requires forall p | p in mem && p !in inTree :: p in mem' && mem'[p] == mem[p]
    ensures Idle(mem'[timer := mem'[timer].(parent := timer, color := Red)], state[timer := Inactive], inTree - {timer})
  {
  }

  /** A node is cleared exactly while its timer is not in the queue, so the test of `RB_EMPTY_NODE` is right. */
  lemma {:induction false} ClearedWhen(b: TimerBase, timer: Ptr)
    requires b.Valid() && timer in b.state
    ensures timer in b.head.mem && (RbSteps.IsCleared(b.head.mem, timer) <==> b.state[timer] != Enqueued)
  {
    hide Ptrs, InOrder, InOrderOfExpiry, Edge, IsRbTree;
    if timer in Ptrs(b.head.tree) {
      RbSteps.NotCleared(b.head.mem, b.head.root, b.head.tree, timer);
    }
  }
}
