/**
 The scheduler of core/sched.c and core/thread.c with the sleeping primitives of core/mutex.c,
 core/semaphore.c and core/futex.c, on one hart and without preemption in the kernel: a step runs
 from where the current thread got the hart up to where it gives it away.

 What a thread does next when it gets the hart is its `pc`.  A mutex and a semaphore have the same
 shape, a count and a list of sleepers; a futex is a word in memory, and its sleepers are found in
 a table of lists by a hash of its address.
 */
module Sched {
  import opened Lists

  const FUTEX_HASHSIZE: nat := 256

  /** The address of a futex in an address space */
  datatype FutexKey = FutexKey(vmspace: nat, address: nat)

  datatype Prim = Mutex(id: nat) | Semaphore(id: nat)

  datatype Status = Ready | Running | Suspend | Exit

  /** `Blocked`: in the loop of `mutex_lock` or `semaphore_down`, about to try; `Waiting`: in `sys_futex_wait`. */
  datatype Pc = New | Free | Blocked(prim: Prim) | Waiting(key: FutexKey)

  datatype Thread = Thread(status: Status, pc: Pc)

  datatype Wait = Wait(atomic: int, mwait: seq<nat>)

  datatype Sleeper = Sleeper(task: nat, key: FutexKey)

  datatype Bucket = Bucket(waiters: int, chain: seq<Sleeper>)

  type Threads = map<nat, Thread>
  type Prims = map<Prim, Wait>

  // ---------------------------------------------------------------- the invariants

  predicate Runnable(s: Status) {
    s == Ready || s == Running
  }

  /** The ready list holds exactly the runnable threads other than the current one, each once. */
  ghost predicate Queued(thread: Threads, current: nat, ready: seq<nat>) {
    && NoDup(ready) && current in thread
    && forall t :: t in ready <==> t in thread && t != current && Runnable(thread[t].status)
  }

  ghost predicate Sleeps(thread: Threads, t: nat, pc: Pc) {
    t in thread && thread[t].status == Suspend && thread[t].pc == pc
  }

  /** The threads that were woken from a primitive and have yet to try again. */
  ghost function Woken(thread: Threads, p: Prim): set<nat> {
    set t | t in thread && thread[t].status != Suspend && thread[t].pc == Blocked(p)
  }

  /**
   The list holds exactly the threads asleep on the primitive; and while there are any, the count
   does not exceed the number of woken threads that have yet to try.
   */
  ghost predicate WaitOk(thread: Threads, p: Prim, w: Wait) {
    && NoDup(w.mwait) && (forall t :: t in w.mwait <==> Sleeps(thread, t, Blocked(p)))
    && 0 <= w.atomic && (p.Mutex? ==> w.atomic <= 1)
    && (w.mwait != [] ==> w.atomic <= |Woken(thread, p)|)
  }

  ghost predicate Waits(thread: Threads, prim: Prims) {
    && (forall p | p in prim :: WaitOk(thread, p, prim[p]))
    && (forall t | t in thread && thread[t].pc.Blocked? :: thread[t].pc.prim in prim)
  }

  /** A mutex has one owner when its count is zero and none when it is one. */
  ghost predicate Owned(prim: Prims, owner: map<Prim, set<nat>>) {
    forall p | p in prim && p.Mutex? :: p in owner && |owner[p]| == 1 - prim[p].atomic
  }

  /** The list of a bucket holds exactly the threads asleep on futexes of that hash, and `waiters` is its length. */
  ghost predicate BucketOk(thread: Threads, b: Bucket, h: nat, hash: FutexKey -> nat) {
    && b.waiters == |b.chain| && NoDup(b.chain)
    && forall q :: q in b.chain <==> Sleeps(thread, q.task, Waiting(q.key)) && hash(q.key) % FUTEX_HASHSIZE == h
  }

  ghost predicate Buckets(thread: Threads, bucket: seq<Bucket>, hash: FutexKey -> nat) {
    && |bucket| == FUTEX_HASHSIZE
    && forall h | 0 <= h < |bucket| :: BucketOk(thread, bucket[h], h, hash)
  }

  /** Who sleeps was not running, and who has left sleeps no more. */
  ghost predicate Settled(thread: Threads, idle: nat) {
    && (forall t | t in thread && thread[t].status == Suspend :: thread[t].pc != Free)
    && (forall t | t in thread && thread[t].status != Suspend :: thread[t].pc != New)
    && (forall t | t in thread && thread[t].status == Exit :: thread[t].pc == Free)
    && idle in thread && Runnable(thread[idle].status)
  }

  // ---------------------------------------------------------------- one thread changes

  /** Nobody fell asleep, woke up or moved on. */
  ghost predicate SameSleep(a: Threads, b: Threads) {
    && a.Keys == b.Keys
    && forall t | t in a :: t in b && a[t].pc == b[t].pc && (a[t].status == Suspend <==> b[t].status == Suspend)
  }

  lemma {:induction false} WaitsSame(a: Threads, b: Threads, prim: Prims)
    requires SameSleep(a, b) && Waits(a, prim)
    ensures Waits(b, prim)
  {
    forall p | p in prim ensures WaitOk(b, p, prim[p]) {
      assert WaitOk(a, p, prim[p]);
      WaitOkSame(a, b, p, prim[p]);
    }
  }

  lemma {:induction false} WaitOkSame(a: Threads, b: Threads, p: Prim, w: Wait)
    requires SameSleep(a, b) && WaitOk(a, p, w)
    ensures WaitOk(b, p, w)
  {
    assert forall t :: Sleeps(a, t, Blocked(p)) <==> Sleeps(b, t, Blocked(p));
    assert Woken(a, p) == Woken(b, p);
  }

  lemma {:induction false} BucketsSame(a: Threads, b: Threads, bucket: seq<Bucket>, hash: FutexKey -> nat)
    requires SameSleep(a, b) && Buckets(a, bucket, hash)
    ensures Buckets(b, bucket, hash)
  {
    forall h | 0 <= h < |bucket| ensures BucketOk(b, bucket[h], h, hash) {
      assert BucketOk(a, bucket[h], h, hash);
      assert forall q: Sleeper :: Sleeps(a, q.task, Waiting(q.key)) <==> Sleeps(b, q.task, Waiting(q.key));
    }
  }

  /** A thread that neither was nor is at a primitive or a futex does not matter to them. */
  lemma {:induction false} WaitOkElse(a: Threads, t: nat, x: Thread, p: Prim, w: Wait)
    requires WaitOk(a, p, w) && x.pc != Blocked(p) && (t in a ==> a[t].pc != Blocked(p))
    ensures WaitOk(a[t := x], p, w)
  {
    assert forall u :: Sleeps(a, u, Blocked(p)) <==> Sleeps(a[t := x], u, Blocked(p));
    assert Woken(a, p) == Woken(a[t := x], p);
  }

  lemma {:induction false} BucketsElse(a: Threads, t: nat, x: Thread, bucket: seq<Bucket>, hash: FutexKey -> nat)
    requires Buckets(a, bucket, hash) && (t in a && a[t].pc.Waiting? ==> a[t].status != Suspend)
      && (x.pc.Waiting? ==> x.status != Suspend)
    ensures Buckets(a[t := x], bucket, hash)
  {
    forall h | 0 <= h < |bucket| ensures BucketOk(a[t := x], bucket[h], h, hash) {
      assert BucketOk(a, bucket[h], h, hash);
      assert forall q: Sleeper :: Sleeps(a, q.task, Waiting(q.key)) <==> Sleeps(a[t := x], q.task, Waiting(q.key));
    }
  }

  /** A runnable thread goes to sleep on a primitive whose count is zero. */
  lemma {:induction false} WaitOkAsleep(a: Threads, t: nat, p: Prim, w: Wait)
    requires WaitOk(a, p, w) && t in a && a[t].status != Suspend && w.atomic == 0
    ensures WaitOk(a[t := Thread(Suspend, Blocked(p))], p, w.(mwait := w.mwait + [t]))
  {
    var b := a[t := Thread(Suspend, Blocked(p))];
    assert !Sleeps(a, t, Blocked(p));
    NoDupAdd(w.mwait, t);
    assert forall u :: Sleeps(b, u, Blocked(p)) <==> u == t || Sleeps(a, u, Blocked(p));
  }

  /** A runnable thread takes one from the count. */
  lemma {:induction false} WaitOkTaken(a: Threads, t: nat, x: Thread, p: Prim, w: Wait)
    requires WaitOk(a, p, w) && t in a && a[t].status != Suspend && x.pc == Free && w.atomic > 0
    ensures WaitOk(a[t := x], p, w.(atomic := w.atomic - 1))
  {
    var b := a[t := x];
    assert forall u :: Sleeps(b, u, Blocked(p)) <==> Sleeps(a, u, Blocked(p));
    assert Woken(a, p) <= Woken(b, p) + {t};
    SubsetSize(Woken(a, p), Woken(b, p) + {t});
  }

  /** One is given to the count, and the first sleeper is woken. */
  lemma {:induction false} WaitOkGiven(a: Threads, p: Prim, w: Wait)
    requires WaitOk(a, p, w) && (p.Mutex? ==> w.atomic == 0)
    ensures w.mwait == [] ==> WaitOk(a, p, w.(atomic := w.atomic + 1))
    ensures w.mwait != [] ==>
      var t := w.mwait[0];
        && Sleeps(a, t, Blocked(p))
        && WaitOk(a[t := Thread(Ready, Blocked(p))], p, Wait(w.atomic + 1, w.mwait[1..]))
  {
    if w.mwait != [] {
      var t, rest := w.mwait[0], w.mwait[1..];
      var b := a[t := Thread(Ready, Blocked(p))];
      assert Sleeps(a, t, Blocked(p));
      assert w.mwait == [t] + rest;
      forall u ensures u in rest <==> Sleeps(b, u, Blocked(p)) {
        assert u in w.mwait <==> u == t || u in rest;
        if u in rest { assert u != t; }
      }
      assert Woken(b, p) == Woken(a, p) + {t};
    }
  }

  lemma {:induction false} WaitsAt(a: Threads, t: nat, x: Thread, prim: Prims, p: Prim, w: Wait)
    requires Waits(a, prim) && p in prim && WaitOk(a[t := x], p, w)
    requires (t in a && a[t].pc.Blocked? ==> a[t].pc.prim == p) && (x.pc.Blocked? ==> x.pc.prim == p)
    ensures Waits(a[t := x], prim[p := w])
  {
    hide WaitOk;
    forall q | q in prim && q != p ensures WaitOk(a[t := x], q, prim[q]) {
      WaitOkElse(a, t, x, q, prim[q]);
    }
  }

  lemma {:induction false} WaitsElse(a: Threads, t: nat, x: Thread, prim: Prims)
    requires Waits(a, prim) && !x.pc.Blocked? && (t in a ==> !a[t].pc.Blocked?)
    ensures Waits(a[t := x], prim)
  {
    hide WaitOk;
    forall q | q in prim ensures WaitOk(a[t := x], q, prim[q]) {
      WaitOkElse(a, t, x, q, prim[q]);
    }
  }

  // ---------------------------------------------------------------- the run queue

  /** The list with the current thread put back if it can go on. */
  function Back(thread: Threads, current: nat, ready: seq<nat>): seq<nat>
    requires current in thread
  {
    if Runnable(thread[current].status) then ready + [current] else ready
  }

  /** The threads when `t` has got the hart. */
  function Given(thread: Threads, t: nat): Threads {
    if t in thread then thread[t := thread[t].(status := Running)] else thread
  }

  /** What the switch leaves, when it takes the first thread of the list. */
  lemma {:induction false} Switched(thread: Threads, current: nat, ready: seq<nat>)
    requires Queued(thread, current, ready) && Back(thread, current, ready) != []
    ensures var all := Back(thread, current, ready);
      && all[0] in thread && Runnable(thread[all[0]].status)
      && Queued(thread[all[0] := thread[all[0]].(status := Running)], all[0], all[1..])
      && SameSleep(thread, thread[all[0] := thread[all[0]].(status := Running)])
  {
    var all := Back(thread, current, ready);
    var n, rest := all[0], all[1..];
    if all != ready { NoDupAdd(ready, current); }
    assert all == [n] + rest;
    assert forall t :: t in all <==> t in thread && Runnable(thread[t].status);
    forall t ensures t in rest <==> t in all && t != n {
      if t in rest {
        var i :| 0 <= i < |rest| && rest[i] == t;
        assert all[i + 1] == t;
      }
    }
  }

  lemma {:induction false} WokenQueued(thread: Threads, current: nat, ready: seq<nat>, t: nat, pc: Pc)
    requires Queued(thread, current, ready) && t in thread && t != current && !Runnable(thread[t].status)
    ensures Queued(thread[t := Thread(Ready, pc)], current, ready + [t])
  {
    NoDupAdd(ready, t);
  }

  lemma {:induction false} SettledAt(thread: Threads, idle: nat, t: nat, x: Thread)
    requires Settled(thread, idle) && (x.status == Suspend ==> x.pc != Free) && (x.status != Suspend ==> x.pc != New)
      && (x.status == Exit ==> x.pc == Free)
    requires t == idle ==> Runnable(x.status)
    ensures Settled(thread[t := x], idle)
  {
  }

  // ---------------------------------------------------------------- the kernel

  class Kernel {
    var thread: Threads
    var current: nat
    var ready: seq<nat>
    var prim: Prims
    var bucket: seq<Bucket>
    const hash: FutexKey -> nat
    /** The thread that does nothing but give the hart away */
    const idle: nat
    /** The threads that have locked a mutex and not yet unlocked it */
    var owner: map<Prim, set<nat>>

    /** What holds when the current thread is about to give the hart away. */
    ghost predicate Leaving()
      reads this
    {
      && current in thread && Queued(thread, current, ready)
      && Waits(thread, prim) && Owned(prim, owner) && Buckets(thread, bucket, hash) && Settled(thread, idle)
    }

    /** What holds between steps. */
    ghost predicate Valid()
      reads this
    {
      Leaving() && thread[current].status == Running
    }

    constructor (idle: nat, hash: FutexKey -> nat)
      ensures Valid() && thread == map[idle := Thread(Running, Free)] && current == this.idle == idle && prim == map[]
        && this.hash == hash
    {
      this.idle, this.hash := idle, hash;
      thread, current, ready := map[idle := Thread(Running, Free)], idle, [];
      prim, owner := map[], map[];
      bucket := seq(FUTEX_HASHSIZE, _ => Bucket(0, []));
    }

    /** `schedule`: the list is never empty, since the idle thread never sleeps. */
    method Schedule()
      requires Leaving() && (current == idle ==> Runnable(thread[current].status))
      modifies this`thread, this`current, this`ready
      ensures Valid()
      ensures var all := Back(old(thread), old(current), old(ready));
        all != [] && current == all[0] && ready == all[1..] && current in old(thread)
          && thread == Given(old(thread), current)
    {
      hide Queued, Waits, Owned, Buckets, Settled;
      NotAlone(thread, current, ready, idle);
      Switched(thread, current, ready);
      if thread[current].status != Suspend && thread[current].status != Exit {
        ready := ready + [current];
      }
      var next := ready[0];
      WaitsSame(thread, thread[next := thread[next].(status := Running)], prim);
      BucketsSame(thread, thread[next := thread[next].(status := Running)], bucket, hash);
      SettledRunning(thread, idle, next);
      ready, current := ready[1..], next;
      thread := thread[next := thread[next].(status := Running)];
    }

    /** `kthread_create`, `thread_create`: a new thread sleeps until it is started. */
    method Create(t: nat)
      requires Valid() && t !in thread
      modifies this`thread
      ensures Valid() && thread == old(thread)[t := Thread(Suspend, New)]
    {
      hide Queued, Waits, Owned, Buckets, Settled;
      NewQueued(thread, current, ready, t);
      IdleIn(thread, idle);
      WaitsElse(thread, t, Thread(Suspend, New), prim);
      BucketsElse(thread, t, Thread(Suspend, New), bucket, hash);
      SettledAt(thread, idle, t, Thread(Suspend, New));
      thread := thread[t := Thread(Suspend, New)];
    }

    /**
     `thread_resume` of a thread that does not sleep on a primitive: it starts a new thread and does
     nothing to others.
     */
    method Start(t: nat)
      requires Valid() && t in thread && (thread[t].status == Suspend ==> thread[t].pc == New)
      modifies this`thread, this`ready
      ensures Valid()
      ensures old(thread[t].status) == Suspend ==>
        thread == old(thread)[t := Thread(Ready, Free)] && ready == old(ready) + [t]
      ensures old(thread[t].status) != Suspend ==> thread == old(thread) && ready == old(ready)
    {
      hide Queued, Waits, Owned, Buckets, Settled;
      if thread[t].status == Suspend {
        WokenQueued(thread, current, ready, t, Free);
        WaitsElse(thread, t, Thread(Ready, Free), prim);
        BucketsElse(thread, t, Thread(Ready, Free), bucket, hash);
        SettledAt(thread, idle, t, Thread(Ready, Free));
        thread := thread[t := Thread(Ready, Free)];
        ready := ready + [t];
      }
    }

    /** `schedule` called by a thread that goes on running later */
    method Yield()
      requires Valid()
      modifies this`thread, this`current, this`ready
      ensures Valid() && [current] + ready == old(ready + [current])
      ensures thread == Given(old(thread), current)
    {
      hide Queued, Waits, Owned, Buckets, Settled;
      Schedule();
    }

    /** `thread_destroy` of the current thread */
    method Leave()
      requires Valid() && current != idle && thread[current].pc == Free
      modifies this`thread, this`current, this`ready
      ensures Valid() && old(current) != current && [current] + ready == old(ready)
      ensures thread == Given(old(thread)[old(current) := Thread(Exit, Free)], current)
    {
      hide Queued, Waits, Owned, Buckets, Settled;
      var x := Thread(Exit, Free);
      SelfQueued(thread, current, ready, x);
      WaitsElse(thread, current, x, prim);
      BucketsElse(thread, current, x, bucket, hash);
      SettledAt(thread, idle, current, x);
      thread := thread[current := x];
      Schedule();
      SelfOther(old(thread), old(current), old(ready), current);
    }

    /** `thread_suspend` of the current thread after it has put itself on the list of a primitive */
    method Block(p: Prim)
      requires Valid() && p in prim && prim[p].atomic == 0 && current != idle
      requires thread[current].pc == Free || thread[current].pc == Blocked(p)
      modifies this`thread, this`current, this`ready, this`prim
      ensures Valid() && prim == old(prim)[p := Wait(0, old(prim)[p].mwait + [old(current)])]
      ensures [current] + ready == old(ready) && old(current) != current
      ensures thread == Given(old(thread)[old(current) := Thread(Suspend, Blocked(p))], current)
    {
      hide Queued, Waits, Owned, Buckets, Settled, WaitOk;
      var x := Thread(Suspend, Blocked(p));
      WaitOf(thread, prim, p);
      WaitOkAsleep(thread, current, p, prim[p]);
      WaitsAt(thread, current, x, prim, p, prim[p].(mwait := prim[p].mwait + [current]));
      SelfQueued(thread, current, ready, x);
      BucketsElse(thread, current, x, bucket, hash);
      SettledAt(thread, idle, current, x);
      OwnedSame(prim, owner, p, prim[p].(mwait := prim[p].mwait + [current]));
      prim := prim[p := prim[p].(mwait := prim[p].mwait + [current])];
      thread := thread[current := x];
      Schedule();
      SelfOther(old(thread), old(current), old(ready), current);
    }

    /** The current thread takes one from the count and leaves the loop. */
    method Take(p: Prim)
      requires Valid() && p in prim && prim[p].atomic > 0
      requires thread[current].pc == Free || thread[current].pc == Blocked(p)
      modifies this`thread, this`prim, this`owner
      ensures Valid() && thread == old(thread)[current := Thread(Running, Free)]
        && prim == old(prim)[p := old(prim)[p].(atomic := old(prim)[p].atomic - 1)]
      ensures owner == if p.Mutex? && p in old(owner) then old(owner)[p := old(owner)[p] + {current}] else old(owner)
    {
      hide Queued, Waits, Owned, Buckets, Settled, WaitOk;
      var x, w := Thread(Running, Free), prim[p].(atomic := prim[p].atomic - 1);
      WaitOf(thread, prim, p);
      WaitOkTaken(thread, current, x, p, prim[p]);
      WaitsAt(thread, current, x, prim, p, w);
      SelfQueued(thread, current, ready, x);
      BucketsElse(thread, current, x, bucket, hash);
      SettledAt(thread, idle, current, x);
      OwnedNone(thread, prim, owner, p);
      OwnedSet(prim, owner, p, w, {current});
      prim := prim[p := w];
      thread := thread[current := x];
      if p.Mutex? {
        assert owner[p] + {current} == {current};
        owner := owner[p := owner[p] + {current}];
      }
    }

    /** The count grows by one and the first sleeper, if there is one, is taken off the list and made ready. */
    method Give(p: Prim)
      requires Valid() && p in prim && (p.Mutex? ==> prim[p].atomic == 0 && p in owner && current in owner[p])
      modifies this`thread, this`ready, this`prim, this`owner
      ensures Valid() && owner == if p.Mutex?
        && p in old(owner) then old(owner)[p := old(owner)[p] - {current}] else old(owner)
      ensures old(prim)[p].mwait == [] ==>
        thread == old(thread) && ready == old(ready)
        && prim == old(prim)[p := old(prim)[p].(atomic := old(prim)[p].atomic + 1)]
      ensures old(prim)[p].mwait != [] ==>
        var t := old(prim)[p].mwait[0];
        && Sleeps(old(thread), t, Blocked(p)) && thread == old(thread)[t := Thread(Ready, Blocked(p))]
           && ready == old(ready) + [t]
        && prim == old(prim)[p := Wait(old(prim)[p].atomic + 1, old(prim)[p].mwait[1..])]
    {
      hide Queued, Waits, Owned, Buckets, Settled, WaitOk;
      WaitOf(thread, prim, p);
      WaitOkGiven(thread, p, prim[p]);
      OwnedOne(prim, owner, p, current);
      if prim[p].mwait != [] {
        var t := prim[p].mwait[0];
        var w := Wait(prim[p].atomic + 1, prim[p].mwait[1..]);
        WaitsAt(thread, t, Thread(Ready, Blocked(p)), prim, p, w);
        WokenQueued(thread, current, ready, t, Blocked(p));
        BucketsElse(thread, t, Thread(Ready, Blocked(p)), bucket, hash);
        SettledAt(thread, idle, t, Thread(Ready, Blocked(p)));
        OwnedSet(prim, owner, p, w, {});
        prim := prim[p := w];
        thread := thread[t := Thread(Ready, thread[t].pc)];
        ready := ready + [t];
      } else {
        var w := prim[p].(atomic := prim[p].atomic + 1);
        WaitsOne(thread, prim, p, w);
        OwnedSet(prim, owner, p, w, {});
        prim := prim[p := w];
      }
      if p.Mutex? {
        owner := owner[p := owner[p] - {current}];
      }
    }

    /** `mutex_init`, `semaphore_init` */
    method Init(p: Prim, count: nat)
      requires Valid() && p !in prim && (p.Mutex? ==> count == 1)
      modifies this`prim, this`owner
      ensures Valid() && prim == old(prim)[p := Wait(count, [])]
        && owner == if p.Mutex? then old(owner)[p := {}] else old(owner)
    {
      hide Queued, Buckets, Settled;
      NobodyBlocked(thread, prim, p);
      prim := prim[p := Wait(count, [])];
      if p.Mutex? {
        owner := owner[p := {}];
      }
    }

    /** One round of the loop in `mutex_lock`, for a new caller or for a thread that was woken */
    method MutexLock(m: nat) returns (got: bool)
      requires Valid() && Mutex(m) in prim && (thread[current].pc == Free || thread[current].pc == Blocked(Mutex(m)))
      requires current == idle ==> prim[Mutex(m)].atomic == 1
      modifies this`thread, this`current, this`ready, this`prim, this`owner
      ensures Valid() && (got <==> old(prim)[Mutex(m)].atomic == 1)
      ensures got ==>
        && current == old(current) && ready == old(ready)
        && thread == old(thread)[current := Thread(Running, Free)]
      ensures got ==>
        && prim == old(prim)[Mutex(m) := old(prim)[Mutex(m)].(atomic := 0)] && Mutex(m) in old(owner)
        && owner == old(owner)[Mutex(m) := old(owner)[Mutex(m)] + {current}]
      ensures !got ==>
        && [current] + ready == old(ready)
        && thread == Given(old(thread)[old(current) := Thread(Suspend, Blocked(Mutex(m)))], current)
      ensures !got ==>
        && prim == old(prim)[Mutex(m) := Wait(0, old(prim)[Mutex(m)].mwait + [old(current)])]
        && owner == old(owner)
    {
      hide Queued, Waits, Owned, Buckets, Settled;
      var p := Mutex(m);
      MutexCount(thread, prim, p);
      OwnedIn(prim, owner, p);
      if prim[p].atomic == 1 {
        Take(p);
        return true;
      }
      Block(p);
      got := false;
    }

    /** `mutex_unlock` by the thread that holds the mutex */
    method MutexUnlock(m: nat)
      requires Valid() && Mutex(m) in prim && Mutex(m) in owner && current in owner[Mutex(m)]
      modifies this`thread, this`ready, this`prim, this`owner
      ensures Valid() && owner == old(owner)[Mutex(m) := old(owner)[Mutex(m)] - {current}] && Mutex(m) in prim
        && prim[Mutex(m)].atomic == 1
      ensures old(prim)[Mutex(m)].mwait == [] ==>
        thread == old(thread) && ready == old(ready) && prim == old(prim)[Mutex(m) := Wait(1, [])]
      ensures old(prim)[Mutex(m)].mwait != [] ==>
        var t := old(prim)[Mutex(m)].mwait[0];
        && Sleeps(old(thread), t, Blocked(Mutex(m))) && thread == old(thread)[t := Thread(Ready, Blocked(Mutex(m)))]
           && ready == old(ready) + [t]
        && prim == old(prim)[Mutex(m) := Wait(1, old(prim)[Mutex(m)].mwait[1..])]
    {
      hide Queued, Waits, Owned, Buckets, Settled;
      var p := Mutex(m);
      HeldCount(prim, owner, p, current, thread);
      if prim[p].atomic == 0 {
        Give(p);
      }
    }

    /** One round of the loop in `semaphore_down` */
    method SemaphoreDown(s: nat) returns (got: bool)
      requires Valid() && Semaphore(s) in prim
        && (thread[current].pc == Free || thread[current].pc == Blocked(Semaphore(s)))
      requires current == idle ==> prim[Semaphore(s)].atomic > 0
      modifies this`thread, this`current, this`ready, this`prim, this`owner
      ensures Valid() && owner == old(owner) && (got <==> old(prim)[Semaphore(s)].atomic > 0)
      ensures got ==>
        && current == old(current) && ready == old(ready)
        && thread == old(thread)[current := Thread(Running, Free)]
      ensures got ==> prim == old(prim)[Semaphore(s) :=
        old(prim)[Semaphore(s)].(atomic := old(prim)[Semaphore(s)].atomic - 1)]
      ensures !got ==>
        && [current] + ready == old(ready)
        && thread == Given(old(thread)[old(current) := Thread(Suspend, Blocked(Semaphore(s)))], current)
      ensures !got ==> prim == old(prim)[Semaphore(s) := Wait(0, old(prim)[Semaphore(s)].mwait + [old(current)])]
    {
      hide Queued, Waits, Owned, Buckets, Settled;
      var p := Semaphore(s);
      MutexCount(thread, prim, p);
      if prim[p].atomic > 0 {
        Take(p);
        return true;
      }
      Block(p);
      got := false;
    }

    /** `semaphore_up`, by a thread or by an interrupt */
    method SemaphoreUp(s: nat)
      requires Valid() && Semaphore(s) in prim
      modifies this`thread, this`ready, this`prim, this`owner
      ensures Valid() && owner == old(owner) && Semaphore(s) in prim
        && prim[Semaphore(s)].atomic == old(prim)[Semaphore(s)].atomic + 1
      ensures old(prim)[Semaphore(s)].mwait == [] ==>
        thread == old(thread) && ready == old(ready)
        && prim == old(prim)[Semaphore(s) := Wait(old(prim)[Semaphore(s)].atomic + 1, [])]
      ensures old(prim)[Semaphore(s)].mwait != [] ==>
        var t := old(prim)[Semaphore(s)].mwait[0];
        && Sleeps(old(thread), t, Blocked(Semaphore(s)))
           && thread == old(thread)[t := Thread(Ready, Blocked(Semaphore(s)))] && ready == old(ready) + [t]
        && prim == old(prim)[Semaphore(s) :=
           Wait(old(prim)[Semaphore(s)].atomic + 1, old(prim)[Semaphore(s)].mwait[1..])]
    {
      hide Queued, Waits, Owned, Buckets, Settled;
      Give(Semaphore(s));
    }

    /** `sys_futex_wait`: `uval` is what was read at the address; the value differs, or the thread goes to sleep. */
    method FutexWait(key: FutexKey, uval: nat, val: nat) returns (ret: int)
      requires Valid() && thread[current].pc == Free && current != idle
      modifies this`thread, this`current, this`ready, this`bucket
      ensures Valid()
      ensures uval != val ==>
        && ret == -1 && thread == old(thread) && current == old(current) && ready == old(ready)
        && bucket == old(bucket)
      ensures uval == val ==>
        && ret == 0 && [current] + ready == old(ready)
        && thread == Given(old(thread)[old(current) := Thread(Suspend, Waiting(key))], current)
    {
      hide Queued, Waits, Owned, BucketOk, Settled;
      var h := hash(key) % FUTEX_HASHSIZE;
      bucket := bucket[h := bucket[h].(waiters := bucket[h].waiters + 1)];
      if uval != val {
        bucket := bucket[h := bucket[h].(waiters := bucket[h].waiters - 1)];
        assert bucket == old(bucket);
        return -1;
      }
      var x := Thread(Suspend, Waiting(key));
      SelfQueued(thread, current, ready, x);
      WaitsElse(thread, current, x, prim);
      BucketsAsleep(thread, old(bucket), hash, current, key);
      SettledAt(thread, idle, current, x);
      thread := thread[current := x];
      bucket := bucket[h := bucket[h].(chain := [Sleeper(current, key)] + bucket[h].chain)];
      assert bucket == old(bucket)[h :=
        Bucket(old(bucket)[h].waiters + 1, [Sleeper(current, key)] + old(bucket)[h].chain)];
      Schedule();
      ret := 0;
    }

    /** A thread that was woken from a futex leaves `sys_futex_wait`. */
    method FutexReturn()
      requires Valid() && thread[current].pc.Waiting?
      modifies this`thread
      ensures Valid() && thread == old(thread)[current := Thread(Running, Free)]
    {
      hide Queued, Waits, Owned, Buckets, Settled;
      var x := Thread(Running, Free);
      SelfQueued(thread, current, ready, x);
      WaitsElse(thread, current, x, prim);
      BucketsElse(thread, current, x, bucket, hash);
      SettledAt(thread, idle, current, x);
      thread := thread[current := x];
    }

    /** The first loop of `sys_futex_wake`: the sleepers with the key are taken off the chain. */
    method Unqueue(key: FutexKey) returns (tasks: seq<nat>)
      requires Buckets(thread, bucket, hash)
      modifies this`bucket
      ensures var h := hash(key) % FUTEX_HASHSIZE;
        |old(bucket)| == FUTEX_HASHSIZE && tasks == Tasks(old(bucket)[h].chain, key)
        && bucket == old(bucket)[h := Rest(old(bucket)[h].chain, key)]
    {
      hide BucketOk, Tasks, Others, Without;
      var h := hash(key) % FUTEX_HASHSIZE;
      BucketCount(thread, bucket[h], h, hash);
      var chain, i := bucket[h].chain, 0;
      tasks := [];
      OthersNone(key);
      assert chain[0..] == chain && chain[..0] == [] && [] + chain == chain;
      assert bucket == bucket[h := bucket[h]];
      while i < |chain|
        invariant 0 <= i <= |chain| && |bucket| == FUTEX_HASHSIZE && tasks == Tasks(chain[..i], key)
        invariant bucket == old(bucket)[h := bucket[h]]
        invariant bucket[h] == Bucket(|Others(chain[..i], key)| + |chain| - i, Others(chain[..i], key) + chain[i..])
      {
        var q := chain[i];
        OthersStep(chain, i, key);
        if q.key == key {
          bucket := bucket[h := Bucket(bucket[h].waiters - 1, Without(bucket[h].chain, q))];
          assert bucket == old(bucket)[h := bucket[h]];
          tasks := tasks + [q.task];
        }
        i := i + 1;
      }
      assert chain[..i] == chain && chain[i..] == [] && Others(chain, key) + [] == Others(chain, key);
    }

    /** `sys_futex_wake`: exactly the threads asleep on the futex are made ready. */
    method FutexWake(key: FutexKey)
      requires Valid()
      modifies this`thread, this`ready, this`bucket
      ensures Valid() && thread.Keys == old(thread).Keys
      ensures forall t | t in thread :: thread[t] == if Sleeps(old(thread), t, Waiting(key))
        then Thread(Ready, Waiting(key)) else old(thread)[t]
      ensures |ready| >= |old(ready)| && ready[..|old(ready)|] == old(ready)
      ensures forall t :: t in ready[|old(ready)|..] <==> Sleeps(old(thread), t, Waiting(key))
    {
      hide Queued, Waits, Owned, Buckets, Settled, Tasks, Rest, Raised, NoDup;
      var h := hash(key) % FUTEX_HASHSIZE;
      WakeFacts(thread, current, ready, prim, idle, bucket, hash, key);
      if bucket[h].waiters == 0 {
        RaisedIs(thread, [], key);
        return;
      }
      var tasks := Unqueue(key);
      var i := 0;
      RaisedNone(thread);
      while i < |tasks|
        invariant bucket == old(bucket)[h := Rest(old(bucket)[h].chain, key)]
        invariant 0 <= i <= |tasks| && thread == Raised(old(thread), tasks[..i]) && ready == old(ready) + tasks[..i]
      {
        assert tasks[i] in tasks;
        RaisedStep(old(thread), tasks, i);
        if tasks[i] in thread && thread[tasks[i]].status == Suspend {
          thread := thread[tasks[i] := thread[tasks[i]].(status := Ready)];
          ready := ready + [tasks[i]];
        }
        i := i + 1;
      }
      assert tasks[..i] == tasks;
      RaisedIs(old(thread), tasks, key);
      assert !Sleeps(old(thread), current, Waiting(key));
    }

    ghost function Now(): World
      reads this
    {
      World(thread, current, ready, prim, owner)
    }

    /** The steps of mutexes and semaphores */
    method StepPrim(e: Event)
      requires Valid() && (e.Lock? || e.Unlock? || e.Down? || e.Up?)
      modifies this
      ensures Valid() && Moved(old(current), old(ready), current, ready) && Stepped(e, old(Now()), Now(), idle)
    {
      hide Queued, Waits, Owned, Buckets, Settled;
      var pc, busy := thread[current].pc, current != idle;
      match e {
        case Lock(m) =>
          if Mutex(m) in prim && (pc == Free || pc == Blocked(Mutex(m))) && busy {
            MutexCount(thread, prim, Mutex(m));
            var _ := MutexLock(m);
          }
        case Unlock(m) =>
          if Mutex(m) in prim && Mutex(m) in owner && current in owner[Mutex(m)] {
            HeldCount(prim, owner, Mutex(m), current, thread);
            MutexUnlock(m);
          }
        case Down(s) =>
          if Semaphore(s) in prim && (pc == Free || pc == Blocked(Semaphore(s))) && busy {
            MutexCount(thread, prim, Semaphore(s));
            var _ := SemaphoreDown(s);
          }
        case Up(s) =>
          if Semaphore(s) in prim {
            SemaphoreUp(s);
          }
      }
      TurnTaken(old(thread), old(current), old(ready), current, ready);
    }

    /** The steps of futexes */
    method StepFutex(e: Event)
      requires Valid() && (e.Sleep? || e.Woke? || e.Wake?)
      modifies this
      ensures Valid() && Moved(old(current), old(ready), current, ready) && Stepped(e, old(Now()), Now(), idle)
    {
      hide Queued, Waits, Owned, Buckets, Settled;
      var pc, busy := thread[current].pc, current != idle;
      match e {
        case Sleep(key, uval, val) =>
          if pc == Free && busy {
            var _ := FutexWait(key, uval, val);
          }
        case Woke =>
          if pc.Waiting? {
            FutexReturn();
          }
        case Wake(key) => FutexWake(key);
      }
      TurnTaken(old(thread), old(current), old(ready), current, ready);
    }

    /** One step, if the current thread is where it can take it. */
    method Step(e: Event)
      requires Valid()
      modifies this
      ensures Valid() && Moved(old(current), old(ready), current, ready) && Stepped(e, old(Now()), Now(), idle)
    {
      hide Queued, Waits, Owned, Buckets, Settled;
      if e.Lock? || e.Unlock? || e.Down? || e.Up? {
        StepPrim(e);
        return;
      }
      if e.Sleep? || e.Woke? || e.Wake? {
        StepFutex(e);
        return;
      }
      var pc, busy := thread[current].pc, current != idle;
      match e {
        case Init(p, count) =>
          if p !in prim && (p.Mutex? ==> count == 1) {
            Init(p, count);
          }
        case Create(t) =>
          if t !in thread {
            Create(t);
          }
        case Start(t) =>
          if t in thread && (thread[t].status == Suspend ==> thread[t].pc == New) {
            Start(t);
          }
        case Yield =>
          if pc == Free {
            Yield();
          }
        case Leave =>
          if pc == Free && busy {
            Leave();
          }
      }
      TurnTaken(old(thread), old(current), old(ready), current, ready);
    }

    /**
     Every state that any run of the kernel can reach is safe, and the hart goes round in the order of
     the ready list; `worlds` is the state before the run and after each step.
     */
    method Run(script: seq<Event>) returns (ghost worlds: seq<World>)
      requires Valid()
      modifies this
      ensures Valid() && Safe(thread, current, ready, prim, owner)
      ensures |worlds| == |script| + 1 && worlds[0] == old(Now()) && worlds[|script|] == Now()
      ensures forall i | 0 <= i < |script| :: Stepped(script[i], worlds[i], worlds[i + 1], idle)
      ensures old(ready) <= Turns(Currents(worlds)) + ready
    {
      hide Queued, Waits, Owned, Buckets, Settled, Moved, Turns, Stepped, Currents;
      var i := 0;
      worlds := [Now()];
      TurnsStart(Currents(worlds), ready);
      while i < |script|
        invariant 0 <= i <= |script| && Valid()
        invariant |worlds| == i + 1 && worlds[0] == old(Now()) && worlds[i] == Now()
        invariant forall j | 0 <= j < i :: Stepped(script[j], worlds[j], worlds[j + 1], idle)
        invariant old(ready) <= Turns(Currents(worlds)) + ready
      {
        ghost var c, r := current, ready;
        Step(script[i]);
        CurrentsStep(worlds, Now());
        TurnsStep(old(ready), Currents(worlds), c, r, current, ready);
        worlds := worlds + [Now()];
        i := i + 1;
      }
      ValidIsSafe(thread, current, ready, prim, owner, idle);
    }
  }

  // ---------------------------------------------------------------- the steps

  datatype World = World(thread: Threads, current: nat, ready: seq<nat>, prim: Prims, owner: map<Prim, set<nat>>)

  /** Whether the current thread is where it can take the step */
  ghost predicate Enabled(e: Event, w: World, idle: nat) {
    && w.current in w.thread
    && var pc, busy := w.thread[w.current].pc, w.current != idle;
       match e
       case Init(p, count) => p !in w.prim && (p.Mutex? ==> count == 1)
       case Create(t) => t !in w.thread
       case Start(t) => t in w.thread && (w.thread[t].status == Suspend ==> w.thread[t].pc == New)
       case Yield => pc == Free
       case Leave => pc == Free && busy
       case Lock(m) => Mutex(m) in w.prim && (pc == Free || pc == Blocked(Mutex(m))) && busy
       case Unlock(m) => Mutex(m) in w.prim && Mutex(m) in w.owner && w.current in w.owner[Mutex(m)]
       case Down(s) => Semaphore(s) in w.prim && (pc == Free || pc == Blocked(Semaphore(s))) && busy
       case Up(s) => Semaphore(s) in w.prim
       case Sleep(key, uval, val) => pc == Free && busy
       case Woke => pc.Waiting?
       case Wake(key) => true
  }

  /** The hart is handed to the first of `all`, and the others wait. */
  ghost predicate Passed(w: World, all: seq<nat>, w': World) {
    [w'.current] + w'.ready == all
      && w' == w.(thread := Given(w.thread, w'.current), current := w'.current, ready := w'.ready)
  }

  /** The current thread goes to sleep at `pc`. */
  ghost function Asleep(w: World, status: Status, pc: Pc): World {
    w.(thread := w.thread[w.current := Thread(status, pc)])
  }

  /** A count is taken from, if there is something to take, and otherwise slept on. */
  ghost predicate Taking(w: World, p: Prim, w': World)
    requires p in w.prim
  {
    var x := w.prim[p];
    if x.atomic > 0 then
      w' == Asleep(w, Running, Free).(
        prim := w.prim[p := x.(atomic := x.atomic - 1)],
        owner := if p.Mutex? && p in w.owner then w.owner[p := w.owner[p] + {w.current}] else w.owner)
    else
      Passed(Asleep(w, Suspend, Blocked(p)).(prim := w.prim[p := Wait(0, x.mwait + [w.current])]), w.ready, w')
  }

  /** A count is given to, and the first sleeper wakes. */
  ghost predicate Giving(w: World, p: Prim, w': World)
    requires p in w.prim
  {
    var x := w.prim[p];
    var owner := if p.Mutex? && p in w.owner then w.owner[p := w.owner[p] - {w.current}] else w.owner;
    if x.mwait == [] then w' == w.(prim := w.prim[p := Wait(x.atomic + 1, [])], owner := owner)
    else
      w' == w.(
        thread := w.thread[x.mwait[0] := Thread(Ready, Blocked(p))], ready := w.ready + [x.mwait[0]],
        prim := w.prim[p := Wait(x.atomic + 1, x.mwait[1..])], owner := owner)
  }

  /** Exactly the threads asleep on a futex become ready, behind those that already are. */
  ghost predicate Waking(w: World, key: FutexKey, w': World) {
    && w' == w.(thread := w'.thread, ready := w'.ready) && w'.thread.Keys == w.thread.Keys
    && (forall t | t in w'.thread && t in w.thread ::
          w'.thread[t] == if Sleeps(w.thread, t, Waiting(key)) then Thread(Ready, Waiting(key)) else w.thread[t])
    && w.ready <= w'.ready
    && (forall t :: t in w'.ready[|w.ready|..] <==> Sleeps(w.thread, t, Waiting(key)))
  }

  ghost predicate Effect(e: Event, w: World, w': World, idle: nat)
    requires Enabled(e, w, idle)
  {
    match e
    case Init(p, count) =>
      w' == w.(prim := w.prim[p := Wait(count, [])], owner := if p.Mutex? then w.owner[p := {}] else w.owner)
    case Create(t) => w' == w.(thread := w.thread[t := Thread(Suspend, New)])
    case Start(t) =>
      w' == if w.thread[t].status == Suspend
            then w.(thread := w.thread[t := Thread(Ready, Free)], ready := w.ready + [t]) else w
    case Yield => Passed(w, w.ready + [w.current], w')
    case Leave => Passed(Asleep(w, Exit, Free), w.ready, w')
    case Lock(m) => Taking(w, Mutex(m), w')
    case Unlock(m) => Giving(w, Mutex(m), w')
    case Down(s) => Taking(w, Semaphore(s), w')
    case Up(s) => Giving(w, Semaphore(s), w')
    case Sleep(key, uval, val) =>
      if uval == val then Passed(Asleep(w, Suspend, Waiting(key)), w.ready, w') else w' == w
    case Woke => w' == Asleep(w, Running, Free)
    case Wake(key) => Waking(w, key, w')
  }

  /** A step that the current thread can take has its effect, and any other has none. */
  ghost predicate Stepped(e: Event, w: World, w': World, idle: nat) {
    if Enabled(e, w, idle) then Effect(e, w, w', idle) else w' == w
  }

  ghost function Currents(worlds: seq<World>): (c: seq<nat>)
    ensures |c| == |worlds| && forall i | 0 <= i < |c| :: c[i] == worlds[i].current
  {
    seq(|worlds|, i requires 0 <= i < |worlds| => worlds[i].current)
  }

  lemma {:induction false} CurrentsStep(worlds: seq<World>, w: World)
    ensures Currents(worlds + [w]) == Currents(worlds) + [w.current]
  {
  }

  // ---------------------------------------------------------------- the order of turns

  /** Who waits goes on waiting in the same order, and only the first of the list can get the hart. */
  ghost predicate Moved(c: nat, ready: seq<nat>, c': nat, ready': seq<nat>) {
    if c' == c then ready <= ready' else ready <= [c'] + ready'
  }

  /** The threads that got the hart from another one, in order */
  ghost function Turns(seen: seq<nat>): seq<nat> {
    if |seen| < 2 then []
    else
      var n := |seen| - 1;
      Turns(seen[..n]) + if seen[n] == seen[n - 1] then [] else [seen[n]]
  }

  lemma {:induction false} TurnTaken(thread: Threads, c: nat, ready: seq<nat>, c': nat, ready': seq<nat>)
    requires Queued(thread, c, ready)
    requires (c' == c && ready <= ready') || [c'] + ready' == ready || [c'] + ready' == ready + [c]
    ensures Moved(c, ready, c', ready')
  {
    assert c !in ready;
    assert ready != [] ==> ready[0] != c;
    assert ([c'] + ready')[0] == c';
  }

  lemma {:induction false} TurnsStart(seen: seq<nat>, ready: seq<nat>)
    requires |seen| == 1
    ensures ready <= Turns(seen) + ready
  {
    assert Turns(seen) + ready == ready;
  }

  lemma {:induction false} TurnsStep(first: seq<nat>, seen: seq<nat>, c: nat, ready: seq<nat>, c': nat,
                                     ready': seq<nat>)
    requires first <= Turns(seen) + ready && seen != [] && seen[|seen| - 1] == c && Moved(c, ready, c', ready')
    ensures first <= Turns(seen + [c']) + ready'
  {
    var s := seen + [c'];
    assert s[..|s| - 1] == seen;
    if c' != c {
      assert Turns(s) + ready' == Turns(seen) + ([c'] + ready');
    }
  }

  /** The thread at place `i` of the ready list is the one that the hart is handed to for the `i + 1`st time. */
  lemma {:induction false} GetsTurn(first: seq<nat>, seen: seq<nat>, ready: seq<nat>, i: nat)
    requires first <= Turns(seen) + ready && i < |first|
    ensures i < |Turns(seen)| ==> Turns(seen)[i] == first[i]
    ensures i >= |Turns(seen)| ==> i - |Turns(seen)| < |ready| && ready[i - |Turns(seen)|] == first[i]
  {
    hide Turns;
    assert first[i] == (Turns(seen) + ready)[i];
  }

  datatype Event =
    | Init(prim: Prim, count: nat) | Create(t: nat) | Start(t: nat) | Yield | Leave
    | Lock(m: nat) | Unlock(m: nat) | Down(s: nat) | Up(s: nat)
    | Sleep(key: FutexKey, uval: nat, val: nat) | Woke | Wake(key: FutexKey)

  /** A woken thread that has yet to try the primitive and can run */
  ghost predicate Retrying(thread: Threads, current: nat, ready: seq<nat>, p: Prim, t: nat) {
    t in thread && thread[t].pc == Blocked(p) && (t == current || t in ready)
  }

  /**
   No thread is queued twice, the queue is the runnable threads, a mutex has at most one owner, no
   count is negative, and no thread is left asleep on a primitive that has more to give than there
   are threads on their way to take it.
   */
  ghost predicate Safe(thread: Threads, current: nat, ready: seq<nat>, prim: Prims, owner: map<Prim, set<nat>>) {
    && (forall i, j | 0 <= i < j < |ready| :: ready[i] != ready[j])
    && (forall t :: t in ready <==> t in thread && t != current && Runnable(thread[t].status))
    && (forall p, a, b | p in prim && p.Mutex? && p in owner && a in owner[p] && b in owner[p] :: a == b)
    && (forall p | p in prim :: prim[p].atomic >= 0)
    && (forall p, t | p in prim
       && Sleeps(thread, t, Blocked(p)) :: prim[p].atomic <= |Retriers(thread, current, ready, p)|)
  }

  ghost function Retriers(thread: Threads, current: nat, ready: seq<nat>, p: Prim): set<nat> {
    set t | t in thread && Retrying(thread, current, ready, p, t)
  }

  lemma {:induction false} ValidIsSafe(thread: Threads, current: nat, ready: seq<nat>, prim: Prims,
                                       owner: map<Prim, set<nat>>, idle: nat)
    requires Queued(thread, current, ready) && Waits(thread, prim) && Owned(prim, owner) && Settled(thread, idle)
      && thread[current].status == Running
    ensures Safe(thread, current, ready, prim, owner)
  {
    hide Waits, Owned, Settled;
    forall p, a, b | p in prim && p.Mutex? && p in owner && a in owner[p] && b in owner[p] ensures a == b {
      Exclusive(thread, prim, owner, p, a, b);
    }
    forall p | p in prim ensures prim[p].atomic >= 0 {
      MutexCount(thread, prim, p);
    }
    forall p, t | p in prim && Sleeps(thread, t, Blocked(p))
      ensures prim[p].atomic <= |Retriers(thread, current, ready, p)| {
      NotLeftAsleep(thread, current, ready, prim, idle, p, t);
    }
  }

  lemma {:induction false} Exclusive(thread: Threads, prim: Prims, owner: map<Prim, set<nat>>, p: Prim, a: nat, b: nat)
    requires Waits(thread, prim) && Owned(prim, owner) && p in prim && p.Mutex? && p in owner && a in owner[p]
      && b in owner[p]
    ensures a == b
  {
    HeldCount(prim, owner, p, a, thread);
    OwnedOne(prim, owner, p, a);
    assert b in owner[p] - {a} <==> b != a;
  }

  lemma {:induction false} NotLeftAsleep(thread: Threads, current: nat, ready: seq<nat>, prim: Prims, idle: nat,
                                         p: Prim, t: nat)
    requires Queued(thread, current, ready) && Waits(thread, prim) && Settled(thread, idle)
      && thread[current].status == Running
    requires p in prim && Sleeps(thread, t, Blocked(p))
    ensures prim[p].atomic <= |Retriers(thread, current, ready, p)|
  {
    assert WaitOk(thread, p, prim[p]);
    assert t in prim[p].mwait;
    assert Woken(thread, p) == Retriers(thread, current, ready, p);
  }

  lemma {:induction false} WaitOf(thread: Threads, prim: Prims, p: Prim)
    requires Waits(thread, prim) && p in prim
    ensures WaitOk(thread, p, prim[p])
  {
  }

  lemma {:induction false} WaitsOne(thread: Threads, prim: Prims, p: Prim, w: Wait)
    requires Waits(thread, prim) && p in prim && WaitOk(thread, p, w)
    ensures Waits(thread, prim[p := w])
  {
    hide WaitOk;
  }

  lemma {:induction false} OwnedSame(prim: Prims, owner: map<Prim, set<nat>>, p: Prim, w: Wait)
    requires Owned(prim, owner) && p in prim && w.atomic == prim[p].atomic
    ensures Owned(prim[p := w], owner)
  {
  }

  lemma {:induction false} OwnedIn(prim: Prims, owner: map<Prim, set<nat>>, p: Prim)
    requires Owned(prim, owner) && p in prim && p.Mutex?
    ensures p in owner
  {
  }

  lemma {:induction false} OwnedNone(thread: Threads, prim: Prims, owner: map<Prim, set<nat>>, p: Prim)
    requires Waits(thread, prim) && Owned(prim, owner) && p in prim && prim[p].atomic > 0
    ensures p.Mutex? ==> prim[p].atomic == 1 && p in owner && owner[p] == {}
  {
    MutexCount(thread, prim, p);
  }

  lemma {:induction false} OwnedOne(prim: Prims, owner: map<Prim, set<nat>>, p: Prim, t: nat)
    requires Owned(prim, owner) && p in prim && (p.Mutex? ==> prim[p].atomic == 0 && p in owner && t in owner[p])
    ensures p.Mutex? ==> owner[p] - {t} == {}
  {
    if p.Mutex? {
      assert |owner[p] - {t}| == 0;
    }
  }

  lemma {:induction false} OwnedSet(prim: Prims, owner: map<Prim, set<nat>>, p: Prim, w: Wait, s: set<nat>)
    requires Owned(prim, owner) && p in prim && (p.Mutex? ==> |s| == 1 - w.atomic)
    ensures Owned(prim[p := w], if p.Mutex? then owner[p := s] else owner)
  {
  }

  lemma {:induction false} NotAlone(thread: Threads, current: nat, ready: seq<nat>, idle: nat)
    requires Queued(thread, current, ready) && Settled(thread, idle)
      && (current == idle ==> Runnable(thread[current].status))
    ensures current in thread && Back(thread, current, ready) != []
  {
    assert current != idle ==> idle in ready;
  }

  lemma {:induction false} SettledRunning(thread: Threads, idle: nat, n: nat)
    requires Settled(thread, idle) && n in thread && Runnable(thread[n].status)
    ensures Settled(thread[n := thread[n].(status := Running)], idle)
  {
  }

  lemma {:induction false} IdleIn(thread: Threads, idle: nat)
    requires Settled(thread, idle)
    ensures idle in thread && Runnable(thread[idle].status)
  {
  }

  lemma {:induction false} NewQueued(thread: Threads, current: nat, ready: seq<nat>, t: nat)
    requires Queued(thread, current, ready) && t !in thread
    ensures Queued(thread[t := Thread(Suspend, New)], current, ready)
  {
  }

  /** The list says nothing about the current thread. */
  lemma {:induction false} SelfQueued(thread: Threads, current: nat, ready: seq<nat>, x: Thread)
    requires Queued(thread, current, ready)
    ensures Queued(thread[current := x], current, ready)
  {
  }

  lemma {:induction false} SelfOther(thread: Threads, current: nat, ready: seq<nat>, t: nat)
    requires Queued(thread, current, ready)
    ensures current !in ready
  {
  }

  lemma {:induction false} NobodyBlocked(thread: Threads, prim: Prims, p: Prim)
    requires Waits(thread, prim) && p !in prim
    ensures forall t :: !Sleeps(thread, t, Blocked(p))
  {
    hide WaitOk;
  }

  lemma {:induction false} MutexCount(thread: Threads, prim: Prims, p: Prim)
    requires Waits(thread, prim) && p in prim
    ensures 0 <= prim[p].atomic && (p.Mutex? ==> prim[p].atomic <= 1)
  {
    assert WaitOk(thread, p, prim[p]);
  }

  lemma {:induction false} HeldCount(prim: Prims, owner: map<Prim, set<nat>>, p: Prim, t: nat, thread: Threads)
    requires Waits(thread, prim) && Owned(prim, owner) && p in prim && p.Mutex? && p in owner && t in owner[p]
    ensures prim[p].atomic == 0
  {
    MutexCount(thread, prim, p);
    SubsetSize({t}, owner[p]);
  }

  // ---------------------------------------------------------------- futexes

  /** The threads of a chain that sleep on the key, in order, and the part of the chain that stays. */
  ghost function Tasks(chain: seq<Sleeper>, key: FutexKey): seq<nat> {
    if chain == [] then [] else Tasks(chain[..|chain| - 1], key) + if chain[|chain| - 1].key == key
      then [chain[|chain| - 1].task] else []
  }

  ghost function Others(chain: seq<Sleeper>, key: FutexKey): seq<Sleeper> {
    if chain == [] then [] else Others(chain[..|chain| - 1], key) + if chain[|chain| - 1].key == key then []
      else [chain[|chain| - 1]]
  }

  ghost function Rest(chain: seq<Sleeper>, key: FutexKey): Bucket {
    Bucket(|Others(chain, key)|, Others(chain, key))
  }

  ghost function Raised(thread: Threads, tasks: seq<nat>): Threads {
    map t | t in thread :: if t in tasks && thread[t].status == Suspend then thread[t].(status := Ready) else thread[t]
  }

  lemma {:induction false} OthersNone(key: FutexKey)
    ensures Others([], key) == [] && Tasks([], key) == []
  {
  }

  lemma {:induction false} OthersStep(chain: seq<Sleeper>, i: nat, key: FutexKey)
    requires i < |chain|
    ensures var q, o := chain[i], Others(chain[..i], key);
      && Tasks(chain[..i + 1], key)
         == (if q.key == key then Tasks(chain[..i], key) + [q.task] else Tasks(chain[..i], key))
      && (q.key == key ==> Others(chain[..i + 1], key) == o && Without(o + chain[i..], q) == o + chain[i + 1..])
      && (q.key != key ==> Others(chain[..i + 1], key) == o + [q] && o + chain[i..] == o + [q] + chain[i + 1..])
  {
    hide Without;
    var q, o := chain[i], Others(chain[..i], key);
    assert chain[..i + 1][..i] == chain[..i];
    assert chain[i..] == [q] + chain[i + 1..];
    if q.key == key {
      OthersMembers(chain[..i], key);
      assert o + chain[i..] == o + [q] + chain[i + 1..];
      WithoutAt(o, q, chain[i + 1..]);
    }
  }

  lemma {:induction false} OthersMembers(chain: seq<Sleeper>, key: FutexKey)
    ensures forall q :: q in Others(chain, key) <==> q in chain && q.key != key
    ensures forall t :: t in Tasks(chain, key) <==> Sleeper(t, key) in chain
    ensures NoDup(chain) ==> NoDup(Others(chain, key)) && NoDup(Tasks(chain, key))
  {
    if chain != [] {
      var n := |chain| - 1;
      assert chain == chain[..n] + [chain[n]];
      OthersMembers(chain[..n], key);
      if NoDup(chain) {
        assert chain[n] !in chain[..n];
      }
    }
  }

  lemma {:induction false} RaisedIs(thread: Threads, tasks: seq<nat>, key: FutexKey)
    requires forall t :: t in tasks <==> Sleeps(thread, t, Waiting(key))
    ensures Raised(thread, tasks).Keys == thread.Keys
    ensures forall t | t in thread :: Raised(thread, tasks)[t] == if Sleeps(thread, t, Waiting(key))
      then Thread(Ready, Waiting(key)) else thread[t]
    ensures forall t | t in thread && t !in tasks :: Raised(thread, tasks)[t] == thread[t]
  {
  }

  lemma {:induction false} RaisedNone(thread: Threads)
    ensures Raised(thread, []) == thread
  {
  }

  lemma {:induction false} RaisedStep(thread: Threads, tasks: seq<nat>, i: nat)
    requires i < |tasks| && NoDup(tasks) && tasks[i] in thread && thread[tasks[i]].status == Suspend
    ensures tasks[..i + 1] == tasks[..i] + [tasks[i]] && tasks[i] in Raised(thread, tasks[..i])
      && Raised(thread, tasks[..i])[tasks[i]] == thread[tasks[i]]
    ensures Raised(thread, tasks[..i + 1]) == Raised(thread, tasks[..i])[tasks[i] := thread[tasks[i]].(status := Ready)]
  {
    assert tasks[..i + 1] == tasks[..i] + [tasks[i]];
    assert tasks[i] !in tasks[..i];
  }

  lemma {:induction false} BucketCount(thread: Threads, b: Bucket, h: nat, hash: FutexKey -> nat)
    requires BucketOk(thread, b, h, hash)
    ensures b.waiters == |b.chain|
  {
  }

  lemma {:induction false} BucketsAsleep(a: Threads, bucket: seq<Bucket>, hash: FutexKey -> nat, t: nat, key: FutexKey)
    requires Buckets(a, bucket, hash) && t in a && a[t].status != Suspend
    ensures var h := hash(key) % FUTEX_HASHSIZE;
      Buckets(a[t := Thread(Suspend, Waiting(key))],
        bucket[h := Bucket(bucket[h].waiters + 1, [Sleeper(t, key)] + bucket[h].chain)], hash)
  {
    var h, b := hash(key) % FUTEX_HASHSIZE, a[t := Thread(Suspend, Waiting(key))];
    var bucket' := bucket[h := Bucket(bucket[h].waiters + 1, [Sleeper(t, key)] + bucket[h].chain)];
    forall g | 0 <= g < |bucket'| ensures BucketOk(b, bucket'[g], g, hash) {
      BucketAsleep(a, bucket[g], g, hash, t, key);
    }
  }

  lemma {:induction false} BucketAsleep(a: Threads, x: Bucket, g: nat, hash: FutexKey -> nat, t: nat, key: FutexKey)
    requires BucketOk(a, x, g, hash) && t in a && a[t].status != Suspend
    ensures BucketOk(a[t := Thread(Suspend, Waiting(key))], if g == hash(key) % FUTEX_HASHSIZE
      then Bucket(x.waiters + 1, [Sleeper(t, key)] + x.chain) else x, g, hash)
  {
    var b := a[t := Thread(Suspend, Waiting(key))];
    assert !Sleeps(a, t, Waiting(key));
    assert forall q: Sleeper :: Sleeps(b, q.task, Waiting(q.key)) <==>
      q == Sleeper(t, key) || Sleeps(a, q.task, Waiting(q.key));
    if g == hash(key) % FUTEX_HASHSIZE {
      assert Sleeper(t, key) !in x.chain;
      NoDupAdd(x.chain, Sleeper(t, key));
    }
  }

  /** What waking all sleepers of a futex does to the kernel. */
  lemma {:induction false} WakeFacts(thread: Threads, current: nat, ready: seq<nat>, prim: Prims, idle: nat,
                                     bucket: seq<Bucket>, hash: FutexKey -> nat, key: FutexKey)
    requires Queued(thread, current, ready) && thread[current].status == Running && Waits(thread, prim)
      && Buckets(thread, bucket, hash) && Settled(thread, idle)
    ensures |bucket| == FUTEX_HASHSIZE
    ensures var h := hash(key) % FUTEX_HASHSIZE; var tasks := Tasks(bucket[h].chain, key);
      && NoDup(tasks) && (forall t :: t in tasks <==> Sleeps(thread, t, Waiting(key)))
      && (bucket[h].waiters == 0 ==> tasks == [])
      && Queued(Raised(thread, tasks), current, ready + tasks) && Waits(Raised(thread, tasks), prim)
         && Settled(Raised(thread, tasks), idle)
      && Buckets(Raised(thread, tasks), bucket[h := Rest(bucket[h].chain, key)], hash)
  {
    hide Tasks, Others;
    var h := hash(key) % FUTEX_HASHSIZE;
    var tasks := Tasks(bucket[h].chain, key);
    assert BucketOk(thread, bucket[h], h, hash);
    OthersMembers(bucket[h].chain, key);
    if bucket[h].waiters == 0 {
      assert bucket[h].chain == [];
      OthersNone(key);
    }
    RaisedQueued(thread, current, ready, tasks);
    RaisedWaits(thread, prim, tasks, key);
    RaisedBuckets(thread, bucket, hash, key, tasks);
  }

  lemma {:induction false} RaisedQueued(thread: Threads, current: nat, ready: seq<nat>, tasks: seq<nat>)
    requires Queued(thread, current, ready) && thread[current].status == Running && NoDup(tasks)
    requires forall t | t in tasks :: t in thread && thread[t].status == Suspend
    ensures Queued(Raised(thread, tasks), current, ready + tasks)
  {
    var all := ready + tasks;
    forall i, j | 0 <= i < j < |all| ensures all[i] != all[j] {
      if i < |ready| <= j {
        assert all[i] in ready && all[j] in tasks;
      }
    }
  }

  lemma {:induction false} RaisedWaits(thread: Threads, prim: Prims, tasks: seq<nat>, key: FutexKey)
    requires Waits(thread, prim) && forall t | t in tasks :: Sleeps(thread, t, Waiting(key))
    ensures Waits(Raised(thread, tasks), prim)
  {
    hide WaitOk;
    forall p | p in prim ensures WaitOk(Raised(thread, tasks), p, prim[p]) {
      RaisedWaitOk(thread, p, prim[p], tasks, key);
    }
  }

  lemma {:induction false} RaisedWaitOk(thread: Threads, p: Prim, w: Wait, tasks: seq<nat>, key: FutexKey)
    requires WaitOk(thread, p, w) && forall t | t in tasks :: Sleeps(thread, t, Waiting(key))
    ensures WaitOk(Raised(thread, tasks), p, w)
  {
    var b := Raised(thread, tasks);
    assert forall u :: Sleeps(b, u, Blocked(p)) <==> Sleeps(thread, u, Blocked(p));
    assert Woken(b, p) == Woken(thread, p);
  }

  lemma {:induction false} RaisedBuckets(thread: Threads, bucket: seq<Bucket>, hash: FutexKey -> nat, key: FutexKey,
                                         tasks: seq<nat>)
    requires Buckets(thread, bucket, hash) && forall t :: t in tasks <==> Sleeps(thread, t, Waiting(key))
    ensures Buckets(Raised(thread, tasks),
      bucket[hash(key) % FUTEX_HASHSIZE := Rest(bucket[hash(key) % FUTEX_HASHSIZE].chain, key)], hash)
  {
    hide Others;
    var h, b := hash(key) % FUTEX_HASHSIZE, Raised(thread, tasks);
    var bucket' := bucket[h := Rest(bucket[h].chain, key)];
    assert forall q: Sleeper :: Sleeps(b, q.task, Waiting(q.key)) <==>
      Sleeps(thread, q.task, Waiting(q.key)) && q.key != key;
    forall g | 0 <= g < |bucket'| ensures BucketOk(b, bucket'[g], g, hash) {
      assert BucketOk(thread, bucket[g], g, hash);
      OthersMembers(bucket[g].chain, key);
    }
  }
}
