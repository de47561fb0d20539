/**
 A model of the in-process topic broker `Signal` of src/sigmal/signal.js.

 The broker keeps a map from topic name to the ordered list of receivers that
 wait on that topic. `Receive` registers one fresh receiver on every topic it
 names (once per occurrence of the topic); `Send` walks the topics it names in
 order and, for each topic that has an entry, resolves every queued receiver
 in queue order and then resets that topic's queue to empty.

 A receiver stands for the `resolve` callback of one JavaScript Promise. Such a
 promise settles at most once: the first `resolve` fixes its value and every
 later `resolve` is a no-op. The model keeps that settlement state per receiver
 and a ghost log of every `resolve` call, so the order of deliveries can be
 stated.
 */
module Sigmal {

  datatype Option<T> = None | Some(value: T)

  /** Topic names are JavaScript `Map` keys; the callers use strings. */
  type Topic = string

  /** A receiver is identified by the number of receivers created before it. */
  type Waiter = nat

  /** The topic map: topic name to its queue of receivers, oldest first. */
  type TopicMap = map<Topic, seq<Waiter>>

  /** One call `receiver.resolve(message)`, in the order the calls are made. */
  datatype Call<M> = Call(waiter: Waiter, message: M)

  /** The queue of `t`, where a topic without an entry reads as an empty queue. */
  function QueueOf(q: TopicMap, t: Topic): seq<Waiter>
  {
    if t in q then q[t] else []
  }

  /** A second update of the same key overrides the first. */
  lemma UpdateTwice<K, V>(m: map<K, V>, k: K, a: V, b: V)
    ensures m[k := a][k := b] == m[k := b]
  {
  }

  /** A prefix one element longer is the shorter prefix followed by that element. */
  lemma PrefixStep<T>(s: seq<T>, i: nat)
    requires i < |s|
    ensures s[..i + 1] == s[..i] + [s[i]]
  {
  }

  /** `n` copies of `w`. */
  function Copies(w: Waiter, n: nat): seq<Waiter>
  {
    if n == 0 then [] else Copies(w, n - 1) + [w]
  }

  // ---------------------------------------------------------------------------
  // receive(topics)
  // ---------------------------------------------------------------------------

  /**
   The topic map after `receive(ts)` has registered receiver `w`: topic by
   topic, create an empty entry if there is none, then push `w` onto it.
   */
  function Registered(q: TopicMap, ts: seq<Topic>, w: Waiter): TopicMap
    decreases |ts|
  {
    if ts == [] then q
    else
      var p := Registered(q, ts[..|ts| - 1], w);
      var t := ts[|ts| - 1];
      p[t := QueueOf(p, t) + [w]]
  }

  /** One more topic at the end of a `receive`. */
  lemma RegisteredStep(q: TopicMap, ts: seq<Topic>, w: Waiter, t: Topic)
    ensures Registered(q, ts + [t], w) ==
      var p := Registered(q, ts, w); p[t := QueueOf(p, t) + [w]]
  {
    assert (ts + [t])[..|ts|] == ts;
  }

  /**
   After `receive(ts)` a topic has an entry exactly when it had one before or
   is named in `ts`: entries are created, never removed.
   */
  lemma {:induction false} RegisteredKeys(q: TopicMap, ts: seq<Topic>, w: Waiter, t: Topic)
    ensures t in Registered(q, ts, w) <==> t in q || t in ts
    decreases |ts|
  {
    if ts != [] {
      var pre, last := ts[..|ts| - 1], ts[|ts| - 1];
      assert t in ts <==> t in pre || t == last by {
        assert ts == pre + [last];
      }
      RegisteredKeys(q, pre, w, t);
    }
  }

  /**
   After `receive(ts)` the queue of every topic is its previous queue (empty
   when it had no entry) followed by the new receiver once per occurrence of
   the topic in `ts`: duplicates are kept, and a topic not named keeps its
   queue untouched.
   */
  lemma {:induction false} RegisteredQueue(q: TopicMap, ts: seq<Topic>, w: Waiter, t: Topic)
    ensures QueueOf(Registered(q, ts, w), t) == QueueOf(q, t) + Copies(w, multiset(ts)[t])
    decreases |ts|
  {
    if ts != [] {
      var pre, last := ts[..|ts| - 1], ts[|ts| - 1];
      var n := multiset(pre)[t];
      assert multiset(ts)[t] == if last == t then n + 1 else n by {
        assert ts == pre + [last];
      }
      RegisteredQueue(q, pre, w, t);
      if last == t {
        assert Copies(w, n + 1) == Copies(w, n) + [w];
        assert (QueueOf(q, t) + Copies(w, n)) + [w] == QueueOf(q, t) + (Copies(w, n) + [w]);
      }
    }
  }

  // ---------------------------------------------------------------------------
  // send(topics, message)
  // ---------------------------------------------------------------------------

  /**
   The topic map after `send(ts, m)`: topic by topic, an entry that exists is
   reset to the empty queue; a topic without an entry is skipped.
   */
  function Drained(q: TopicMap, ts: seq<Topic>): TopicMap
    decreases |ts|
  {
    if ts == [] then q
    else
      var p := Drained(q, ts[..|ts| - 1]);
      var t := ts[|ts| - 1];
      if t in p then p[t := []] else p
  }

  /**
   `send` never creates or removes an entry; every named topic that had an
   entry then has an empty queue, and every other topic keeps its queue.
   */
  lemma {:induction false} DrainedAt(q: TopicMap, ts: seq<Topic>, t: Topic)
    ensures t in Drained(q, ts) <==> t in q
    ensures t in q && t in ts ==> Drained(q, ts)[t] == []
    ensures t in q && t !in ts ==> Drained(q, ts)[t] == q[t]
    decreases |ts|
  {
    if ts != [] {
      var pre := ts[..|ts| - 1];
      assert ts == pre + [ts[|ts| - 1]];
      DrainedAt(q, pre, t);
    }
  }

  /**
   The receivers that `send(ts, m)` resolves, in the order it resolves them:
   topic by topic in the order of `ts`, each topic's queue as it stood when
   the call began, in queue order. A topic named a second time contributes
   nothing, for its queue was reset at its first occurrence.
   */
  function Deliveries(q: TopicMap, ts: seq<Topic>): seq<Waiter>
    decreases |ts|
  {
    if ts == [] then []
    else
      var pre := ts[..|ts| - 1];
      var t := ts[|ts| - 1];
      Deliveries(q, pre) + (if t in pre then [] else QueueOf(q, t))
  }

  /** One more topic at the end of a `send`. */
  lemma DrainedStep(q: TopicMap, ts: seq<Topic>, t: Topic)
    ensures Drained(q, ts + [t]) ==
      var p := Drained(q, ts); if t in p then p[t := []] else p
  {
    assert (ts + [t])[..|ts|] == ts;
  }

  /** One more topic at the end of a `send`. */
  lemma DeliveriesStep(q: TopicMap, ts: seq<Topic>, t: Topic)
    ensures Deliveries(q, ts + [t]) ==
      Deliveries(q, ts) + (if t in ts then [] else QueueOf(q, t))
  {
    assert (ts + [t])[..|ts|] == ts;
  }

  /** Receiver `w` sits in the queue of at least one of the topics `ts`. */
  ghost predicate QueuedOn(q: TopicMap, ts: seq<Topic>, w: Waiter)
  {
    exists k :: 0 <= k < |ts| && w in QueueOf(q, ts[k])
  }

  /**
   `send(ts, m)` resolves exactly the receivers queued on some topic of
   `ts`: no receiver outside those queues is touched (no cross-talk).
   */
  lemma {:induction false} DeliveriesHas(q: TopicMap, ts: seq<Topic>, w: Waiter)
    ensures w in Deliveries(q, ts) <==> QueuedOn(q, ts, w)
    decreases |ts|
  {
    if ts != [] {
      var pre, t := ts[..|ts| - 1], ts[|ts| - 1];
      DeliveriesHas(q, pre, w);
      if QueuedOn(q, ts, w) {
        var k :| 0 <= k < |ts| && w in QueueOf(q, ts[k]);
        if k < |pre| {
          assert ts[k] == pre[k];
        } else if t in pre {
          var k' :| 0 <= k' < |pre| && pre[k'] == t;
          assert w in QueueOf(q, pre[k']);
        }
      }
      if w in Deliveries(q, pre) {
        var k :| 0 <= k < |pre| && w in QueueOf(q, pre[k]);
        assert ts[k] == pre[k];
      }
      if t !in pre && w in QueueOf(q, t) {
        assert ts[|ts| - 1] == t;
      }
    }
  }

  /** `part` occurs in `s` as a run of consecutive elements starting at `i`. */
  ghost predicate RunAt(s: seq<Waiter>, part: seq<Waiter>, i: int)
  {
    0 <= i <= |s| - |part| && s[i..i + |part|] == part
  }

  /**
   FIFO per topic: the whole queue of a named topic is resolved in one run,
   in queue (subscription) order, with no other receiver in between.
   */
  lemma {:induction false} DeliveriesKeepQueue(q: TopicMap, ts: seq<Topic>, t: Topic)
    requires t in ts
    ensures exists i :: RunAt(Deliveries(q, ts), QueueOf(q, t), i)
    decreases |ts|
  {
    var pre, last := ts[..|ts| - 1], ts[|ts| - 1];
    var d := Deliveries(q, pre);
    var rest := if last in pre then [] else QueueOf(q, last);
    assert Deliveries(q, ts) == d + rest;
    if t in pre {
      DeliveriesKeepQueue(q, pre, t);
      var i :| RunAt(d, QueueOf(q, t), i);
      RunAtExtend(d, rest, QueueOf(q, t), i);
    } else {
      assert t == last by {
        assert ts == pre + [last];
      }
      RunAtEnd(d, rest);
    }
  }

  /** A run stays where it is when more elements are appended. */
  lemma RunAtExtend(s: seq<Waiter>, more: seq<Waiter>, part: seq<Waiter>, i: int)
    requires RunAt(s, part, i)
    ensures RunAt(s + more, part, i)
  {
    assert (s + more)[i..i + |part|] == s[i..i + |part|];
  }

  /** What is appended is a run at the old end. */
  lemma RunAtEnd(s: seq<Waiter>, part: seq<Waiter>)
    ensures RunAt(s + part, part, |s|)
  {
    assert (s + part)[|s|..|s| + |part|] == part;
  }

  /**
   A second `send` on the same topics, with no `receive` in between, resolves
   no receiver at all: the first one left every named queue empty.
   */
  lemma {:induction false} DrainedDeliversNothing(q: TopicMap, ts: seq<Topic>)
    ensures Deliveries(Drained(q, ts), ts) == []
  {
    var d := Drained(q, ts);
    if Deliveries(d, ts) != [] {
      var w := Deliveries(d, ts)[0];
      DeliveriesHas(d, ts, w);
      var k :| 0 <= k < |ts| && w in QueueOf(d, ts[k]);
      DrainedAt(q, ts, ts[k]);
    }
  }

  // ---------------------------------------------------------------------------
  // Promise settlement
  // ---------------------------------------------------------------------------

  /** The settlement state of every receiver: pending, or settled with a message. */
  type States<M> = map<Waiter, Option<M>>

  /** `resolve(m)` on receiver `w`: settles a pending promise, is a no-op otherwise. */
  function Resolved<M>(st: States<M>, w: Waiter, m: M): States<M>
  {
    if w in st && st[w].None? then st[w := Some(m)] else st
  }

  /** The states after `resolve(m)` has been called on each of `ws`, in order. */
  function ResolvedAll<M>(st: States<M>, ws: seq<Waiter>, m: M): States<M>
    decreases |ws|
  {
    if ws == [] then st
    else Resolved(ResolvedAll(st, ws[..|ws| - 1], m), ws[|ws| - 1], m)
  }

  /**
   Resolving `ws` with `m` settles with `m` exactly the pending receivers
   among `ws`; a receiver already settled keeps its message (settlement
   happens once), and a receiver not among `ws` is unchanged. No receiver is
   created or removed.
   */
  lemma {:induction false} ResolvedAllAt<M>(st: States<M>, ws: seq<Waiter>, m: M, w: Waiter)
    ensures w in ResolvedAll(st, ws, m) <==> w in st
    ensures w in st ==>
      ResolvedAll(st, ws, m)[w] == if st[w].None? && w in ws then Some(m) else st[w]
    decreases |ws|
  {
    if ws != [] {
      var pre := ws[..|ws| - 1];
      assert ws == pre + [ws[|ws| - 1]];
      ResolvedAllAt(st, pre, m, w);
    }
  }

  /** Resolving `a` and then `b` is resolving `a + b`. */
  lemma {:induction false} ResolvedAllAppend<M>(st: States<M>, a: seq<Waiter>, b: seq<Waiter>, m: M)
    ensures ResolvedAll(st, a + b, m) == ResolvedAll(ResolvedAll(st, a, m), b, m)
    decreases |b|
  {
    if b == [] {
      assert a + b == a;
    } else {
      var pre := b[..|b| - 1];
      assert (a + b)[..|a + b| - 1] == a + pre;
      ResolvedAllAppend(st, a, pre, m);
    }
  }

  /** The `resolve` calls made on `ws`, in order, each with message `m`. */
  function Calls<M>(ws: seq<Waiter>, m: M): seq<Call<M>>
    decreases |ws|
  {
    if ws == [] then [] else Calls(ws[..|ws| - 1], m) + [Call(ws[|ws| - 1], m)]
  }

  /** The calls on `a` and then on `b` are the calls on `a + b`. */
  lemma {:induction false} CallsAppend<M>(a: seq<Waiter>, b: seq<Waiter>, m: M)
    ensures Calls(a + b, m) == Calls(a, m) + Calls(b, m)
    decreases |b|
  {
    if b == [] {
      assert a + b == a;
    } else {
      var pre := b[..|b| - 1];
      assert (a + b)[..|a + b| - 1] == a + pre;
      CallsAppend(a, pre, m);
    }
  }

  /** Logging the calls on `a` and then those on `b` logs the calls on `a + b`. */
  lemma LogAppend<M>(log: seq<Call<M>>, a: seq<Waiter>, b: seq<Waiter>, m: M)
    ensures (log + Calls(a, m)) + Calls(b, m) == log + Calls(a + b, m)
  {
    CallsAppend(a, b, m);
  }

  /** The message of the first `resolve` call on `w` in `log`, if there is one. */
  function FirstMessage<M>(log: seq<Call<M>>, w: Waiter): Option<M>
    decreases |log|
  {
    if log == [] then None
    else if log[0].waiter == w then Some(log[0].message)
    else FirstMessage(log[1..], w)
  }

  /**
   One more `resolve` call changes the first message of a receiver only when
   it had none and the call is made on it.
   */
  lemma {:induction false} FirstMessageAppend<M>(log: seq<Call<M>>, c: Call<M>, w: Waiter)
    ensures FirstMessage(log + [c], w) ==
      if FirstMessage(log, w).Some? then FirstMessage(log, w)
      else if c.waiter == w then Some(c.message)
      else None
    decreases |log|
  {
    if log != [] {
      assert (log + [c])[1..] == log[1..] + [c];
      FirstMessageAppend(log[1..], c, w);
    }
  }

  /**
   The settlement effect of `send(ts, m)`: every pending receiver queued on a
   topic of `ts` is settled with `m`; a receiver already settled keeps its
   message, even when `ts` reaches it again; a receiver queued on no topic of
   `ts` is unchanged (no cross-talk). No receiver is created or removed.
   */
  lemma SendSettles<M>(q: TopicMap, st: States<M>, ts: seq<Topic>, m: M)
    ensures forall w :: w in ResolvedAll(st, Deliveries(q, ts), m) <==> w in st
    ensures forall w :: w in st ==>
      ResolvedAll(st, Deliveries(q, ts), m)[w] ==
        if st[w].None? && QueuedOn(q, ts, w) then Some(m) else st[w]
  {
    forall w
      ensures w in ResolvedAll(st, Deliveries(q, ts), m) <==> w in st
      ensures w in st ==>
        ResolvedAll(st, Deliveries(q, ts), m)[w] ==
          if st[w].None? && QueuedOn(q, ts, w) then Some(m) else st[w]
    {
      ResolvedAllAt(st, Deliveries(q, ts), m, w);
      DeliveriesHas(q, ts, w);
    }
  }

  /** The topics each receiver was registered on by its `receive` call. */
  type Registrations = map<Waiter, seq<Topic>>

  /**
   Every receiver still pending sits in the queue of every topic it was
   registered on: a queue is reset only by a `send` that resolves all of it.
   */
  ghost predicate PendingQueued<M>(q: TopicMap, st: States<M>, regs: Registrations)
  {
    forall w, t {:trigger t in regs[w]} :: w in regs && t in regs[w] && w in st && st[w].None? ==> t in q && w in q[t]
  }

  /** Resolving one receiver keeps every pending receiver queued. */
  lemma PendingQueuedResolved<M>(q: TopicMap, st: States<M>, regs: Registrations, w: Waiter, m: M)
    requires PendingQueued(q, st, regs)
    ensures PendingQueued(q, Resolved(st, w, m), regs)
  {
  }

  /**
   Pushing receiver `w` onto the queue of `t` and recording `t` among its
   topics keeps every pending receiver queued on all of its topics.
   */
  lemma PendingQueuedPush<M>(q: TopicMap, st: States<M>, regs: Registrations, w: Waiter, t: Topic)
    requires PendingQueued(q, st, regs)
    requires w in regs
    ensures PendingQueued(q[t := QueueOf(q, t) + [w]], st, regs[w := regs[w] + [t]])
  {
    var q', regs' := q[t := QueueOf(q, t) + [w]], regs[w := regs[w] + [t]];
    forall v, u | v in regs' && u in regs'[v] && v in st && st[v].None?
      ensures u in q' && v in q'[u]
    {
      if u != t && v == w {
        assert u in regs[w];
      }
    }
  }

  /**
   `send(ts, m)` keeps every still-pending receiver queued on all of its
   topics, and settles with `m` every receiver that was pending and was
   registered on a topic of `ts`: a receiver is never skipped by the first
   `send` that names one of its topics.
   */
  lemma SendKeepsQueued<M>(q: TopicMap, st: States<M>, regs: Registrations, ts: seq<Topic>, m: M)
    requires PendingQueued(q, st, regs)
    ensures PendingQueued(Drained(q, ts), ResolvedAll(st, Deliveries(q, ts), m), regs)
    ensures forall w, k :: w in regs && w in st && st[w].None? && 0 <= k < |ts| && ts[k] in regs[w] ==>
      w in ResolvedAll(st, Deliveries(q, ts), m) && ResolvedAll(st, Deliveries(q, ts), m)[w] == Some(m)
  {
    var q', st' := Drained(q, ts), ResolvedAll(st, Deliveries(q, ts), m);
    forall w, t | w in regs && t in regs[w] && w in st' && st'[w].None?
      ensures t in q' && w in q'[t]
    {
      ResolvedAllAt(st, Deliveries(q, ts), m, w);
      DeliveriesHas(q, ts, w);
      DrainedAt(q, ts, t);
    }
    forall w, k | w in regs && w in st && st[w].None? && 0 <= k < |ts| && ts[k] in regs[w]
      ensures w in st' && st'[w] == Some(m)
    {
      assert w in QueueOf(q, ts[k]);
      ResolvedAllAt(st, Deliveries(q, ts), m, w);
      DeliveriesHas(q, ts, w);
    }
  }

  // ---------------------------------------------------------------------------
  // The broker invariant
  // ---------------------------------------------------------------------------

  /**
   The broker invariant on the broker's fields: the receivers are exactly the
   ids below `next`; every queue holds only receivers; each receiver's
   promise is resolved with the message of the first `resolve` call made on
   it, or is pending when there was none, and no `resolve` call was made on
   anything but a receiver; the receivers are exactly those with recorded
   topics; and a pending receiver is still queued on every topic it was
   registered on.
   */
  ghost predicate Inv<M>(q: TopicMap, st: States<M>, next: nat, log: seq<Call<M>>, regs: Registrations)
  {
    && (forall w: Waiter :: w in st <==> w < next)
    && (forall t, w :: t in q && w in q[t] ==> w in st)
    && (forall w: Waiter :: FirstMessage(log, w) == if w in st then st[w] else None)
    && (forall w: Waiter :: w in regs <==> w < next)
    && PendingQueued(q, st, regs)
  }

  /** Creating receiver `next`, pending and registered on no topic yet, keeps the invariant. */
  lemma InvNewReceiver<M>(q: TopicMap, st: States<M>, next: nat, log: seq<Call<M>>, regs: Registrations)
    requires Inv(q, st, next, log, regs)
    ensures Inv(q, st[next := None], next + 1, log, regs[next := []])
  {
  }

  /** Pushing receiver `w` onto the queue of `t` and recording `t` among its topics keeps the invariant. */
  lemma InvPush<M>(q: TopicMap, st: States<M>, next: nat, log: seq<Call<M>>, regs: Registrations, w: Waiter, t: Topic)
    requires Inv(q, st, next, log, regs) && w in regs
    ensures Inv(q[t := QueueOf(q, t) + [w]], st, next, log, regs[w := regs[w] + [t]])
  {
    PendingQueuedPush(q, st, regs, w, t);
  }

  /** One `resolve(m)` call on receiver `w`, logged, keeps the invariant. */
  lemma InvResolve<M>(q: TopicMap, st: States<M>, next: nat, log: seq<Call<M>>, regs: Registrations, w: Waiter, m: M)
    requires Inv(q, st, next, log, regs) && w in st
    ensures Inv(q, Resolved(st, w, m), next, log + [Call(w, m)], regs)
  {
    forall v: Waiter
      ensures FirstMessage(log + [Call(w, m)], v) == if v in Resolved(st, w, m) then Resolved(st, w, m)[v] else None
    {
      FirstMessageAppend(log, Call(w, m), v);
    }
    PendingQueuedResolved(q, st, regs, w, m);
  }

  /** Resetting the queue of `t` keeps the invariant once every receiver in it is settled. */
  lemma InvDrain<M>(q: TopicMap, st: States<M>, next: nat, log: seq<Call<M>>, regs: Registrations, t: Topic)
    requires Inv(q, st, next, log, regs) && t in q
    requires forall w :: w in q[t] ==> w in st && st[w].Some?
    ensures Inv(q[t := []], st, next, log, regs)
  {
  }

  // ---------------------------------------------------------------------------
  // The broker
  // ---------------------------------------------------------------------------

  class Signal<M> {
    /** `this.topics`: topic name to its queue of receivers. */
    var topics: TopicMap
    /** The promise behind each receiver created so far. */
    var state: States<M>
    /** The number of receivers created so far; the next receiver's id. */
    var next: nat
    /** Every `resolve` call made so far, in order. */
    ghost var log: seq<Call<M>>
    /** The topics each receiver was registered on, in the order `receive` named them. */
    ghost var regs: Registrations

    /** The broker invariant `Inv` holds of the fields. */
    ghost predicate Valid()
      reads this
    {
      Inv(topics, state, next, log, regs)
    }

    /** `new Signal()`: an empty topic map and no receiver. */
    constructor ()
      ensures Valid()
      ensures topics == map[] && state == map[] && next == 0 && log == [] && regs == map[]
    {
      topics := map[];
      state := map[];
      next := 0;
      log := [];
      regs := map[];
    }

    /**
     `receive(ts)`: creates one pending receiver and registers it on every
     topic of `ts`, once per occurrence, creating entries as needed. No
     existing receiver changes state and no `resolve` call is made.
     */
    method Receive(ts: seq<Topic>) returns (w: Waiter)
      requires Valid()
      modifies this
      ensures Valid()
      ensures w == old(next) && w !in old(state) && next == old(next) + 1
      ensures state == old(state)[w := None]
      ensures topics == Registered(old(topics), ts, w)
      ensures forall t :: t in topics <==> t in old(topics) || t in ts
      ensures forall t :: QueueOf(topics, t) == QueueOf(old(topics), t) + Copies(w, multiset(ts)[t])
      ensures log == old(log)
      ensures regs == old(regs)[w := ts]
    {
      ghost var before := regs;
      w := NewReceiver();
      SubscribeAll(w, ts);
      assert [] + ts == ts;
      UpdateTwice(before, w, [], ts);
      forall t
        ensures t in topics <==> t in old(topics) || t in ts
        ensures QueueOf(topics, t) == QueueOf(old(topics), t) + Copies(w, multiset(ts)[t])
      {
        RegisteredKeys(old(topics), ts, w, t);
        RegisteredQueue(old(topics), ts, w, t);
      }
    }

    /**
     `new Promise((resolve, reject) => …)`: creates one more receiver, pending
     and not yet queued on any topic.
     */
    method NewReceiver() returns (w: Waiter)
      requires Valid()
      modifies this
      ensures Valid()
      ensures w == old(next) && w !in old(state) && next == old(next) + 1
      ensures state == old(state)[w := None] && regs == old(regs)[w := []]
      ensures topics == old(topics) && log == old(log)
    {
      InvNewReceiver(topics, state, next, log, regs);
      w := next;
      next := next + 1;
      state := state[w := None];
      regs := regs[w := []];
    }

    /**
     `receive`'s loop over `ts`: registers receiver `w` on every topic of
     `ts` in order, once per occurrence.
     */
    method SubscribeAll(w: Waiter, ts: seq<Topic>)
      requires Valid() && w in regs
      modifies this
      ensures Valid()
      ensures topics == Registered(old(topics), ts, w)
      ensures regs == old(regs)[w := old(regs)[w] + ts]
      ensures state == old(state) && next == old(next) && log == old(log)
    {
      var i := 0;
      assert old(regs)[w] + ts[..0] == old(regs)[w];
      while i < |ts|
        invariant 0 <= i <= |ts|
        invariant Valid()
        invariant state == old(state) && next == old(next) && log == old(log)
        invariant topics == Registered(old(topics), ts[..i], w)
        invariant regs == old(regs)[w := old(regs)[w] + ts[..i]]
      {
        var t := ts[i];
        PrefixStep(ts, i);
        assert (old(regs)[w] + ts[..i]) + [t] == old(regs)[w] + ts[..i + 1];
        RegisteredStep(old(topics), ts[..i], w, t);
        Subscribe(w, t);
        i := i + 1;
      }
      assert ts[..i] == ts;
    }

    /**
     The body of `receive`'s loop for one topic `t`: creates an empty entry
     when `t` has none, then pushes receiver `w` onto its queue.
     */
    method Subscribe(w: Waiter, t: Topic)
      requires Valid() && w in regs
      modifies this
      ensures Valid()
      ensures topics == old(topics)[t := QueueOf(old(topics), t) + [w]]
      ensures regs == old(regs)[w := old(regs)[w] + [t]]
      ensures state == old(state) && next == old(next) && log == old(log)
    {
      InvPush(topics, state, next, log, regs, w, t);
      if t !in topics {
        topics := topics[t := []];
      }
      topics := topics[t := topics[t] + [w]];
      regs := regs[w := regs[w] + [t]];
    }

    /**
     `receivers.forEach((receiver) => receiver.resolve(message))`: calls
     `resolve` on each receiver in order; each pending one is settled with
     `m`, each settled one is left as it is.
     */
    method ResolveEach(receivers: seq<Waiter>, m: M)
      requires Valid()
      requires forall w :: w in receivers ==> w in state
      modifies this
      ensures Valid()
      ensures topics == old(topics) && next == old(next) && regs == old(regs)
      ensures state == ResolvedAll(old(state), receivers, m)
      ensures log == old(log) + Calls(receivers, m)
    {
      var j := 0;
      while j < |receivers|
        invariant 0 <= j <= |receivers|
        invariant Valid()
        invariant topics == old(topics) && next == old(next) && regs == old(regs)
        invariant state == ResolvedAll(old(state), receivers[..j], m)
        invariant log == old(log) + Calls(receivers[..j], m)
      {
        var w := receivers[j];
        assert w in old(state) && w < next;
        ghost var before := state;
        InvResolve(topics, state, next, log, regs, w, m);
        if state[w].None? {
          state := state[w := Some(m)];
        }
        assert state == Resolved(before, w, m);
        log := log + [Call(w, m)];
        assert receivers[..j + 1][..j] == receivers[..j];
        j := j + 1;
      }
      assert receivers[..j] == receivers;
    }

    /**
     The body of `send`'s loop for one topic `t`: when `t` has an entry, its
     queued receivers are resolved in order with `m` and its queue is reset
     to empty; when it has none, nothing happens.
     */
    method SendTopic(t: Topic, m: M)
      requires Valid()
      modifies this
      ensures Valid()
      ensures next == old(next) && regs == old(regs)
      ensures topics == if t in old(topics) then old(topics)[t := []] else old(topics)
      ensures state == ResolvedAll(old(state), QueueOf(old(topics), t), m)
      ensures log == old(log) + Calls(QueueOf(old(topics), t), m)
    {
      if t in topics {
        var receivers := topics[t];
        ResolveEach(receivers, m);
        forall v | v in receivers
          ensures v in state && state[v].Some?
        {
          ResolvedAllAt(old(state), receivers, m, v);
        }
        InvDrain(topics, state, next, log, regs, t);
        topics := topics[t := []];
      }
    }

    /**
     `send(ts, m)`: for each topic of `ts` in order that has an entry,
     resolves its queued receivers in queue order with `m` and resets its
     queue to empty. Every pending receiver queued on a topic of `ts` is then
     settled with `m`; every other receiver keeps its state; topics outside
     `ts` keep their queues, and no entry is created.
     */
    method Send(ts: seq<Topic>, m: M)
      requires Valid()
      modifies this
      ensures Valid()
      ensures next == old(next)
      ensures topics == Drained(old(topics), ts)
      ensures state == ResolvedAll(old(state), Deliveries(old(topics), ts), m)
      ensures log == old(log) + Calls(Deliveries(old(topics), ts), m)
      ensures forall t :: t in topics <==> t in old(topics)
      ensures forall t :: t in old(topics) && t in ts ==> topics[t] == []
      ensures forall t :: t in old(topics) && t !in ts ==> topics[t] == old(topics)[t]
      ensures forall w :: w in state <==> w in old(state)
      ensures forall w :: w in old(state) ==>
        state[w] == if old(state)[w].None? && QueuedOn(old(topics), ts, w) then Some(m) else old(state)[w]
      ensures regs == old(regs)
      ensures forall w, k :: w in old(state) && old(state)[w].None? && 0 <= k < |ts| && ts[k] in regs[w] ==>
        state[w] == Some(m)
    {
      var i := 0;
      while i < |ts|
        invariant 0 <= i <= |ts|
        invariant Valid()
        invariant next == old(next) && regs == old(regs)
        invariant topics == Drained(old(topics), ts[..i])
        invariant state == ResolvedAll(old(state), Deliveries(old(topics), ts[..i]), m)
        invariant log == old(log) + Calls(Deliveries(old(topics), ts[..i]), m)
      {
        ghost var pre, done := ts[..i], Deliveries(old(topics), ts[..i]);
        var t := ts[i];
        assert ts[..i + 1] == pre + [t];
        DrainedAt(old(topics), pre, t);
        ghost var queued := if t in pre then [] else QueueOf(old(topics), t);
        assert QueueOf(topics, t) == queued;
        SendTopic(t, m);
        DrainedStep(old(topics), pre, t);
        DeliveriesStep(old(topics), pre, t);
        ResolvedAllAppend(old(state), done, queued, m);
        LogAppend(old(log), done, queued, m);
        i := i + 1;
      }
      assert ts[..i] == ts;
      forall t
        ensures t in topics <==> t in old(topics)
        ensures t in old(topics) && t in ts ==> topics[t] == []
        ensures t in old(topics) && t !in ts ==> topics[t] == old(topics)[t]
      {
        DrainedAt(old(topics), ts, t);
      }
      SendSettles(old(topics), old(state), ts, m);
      SendKeepsQueued(old(topics), old(state), regs, ts, m);
    }
  }

  /** `newSignal()`: a fresh, empty broker. */
  method NewSignal<M>() returns (s: Signal<M>)
    ensures fresh(s) && s.Valid()
    ensures s.topics == map[] && s.state == map[] && s.next == 0 && s.log == [] && s.regs == map[]
  {
    s := new Signal();
  }

  /** The free function `send(signal, topics, message)`: delegates to the broker. */
  method Send<M>(s: Signal<M>, ts: seq<Topic>, m: M)
    requires s.Valid()
    modifies s
    ensures s.Valid() && s.next == old(s.next)
    ensures s.topics == Drained(old(s.topics), ts)
    ensures s.state == ResolvedAll(old(s.state), Deliveries(old(s.topics), ts), m)
    ensures s.log == old(s.log) + Calls(Deliveries(old(s.topics), ts), m)
    ensures forall t :: t in s.topics <==> t in old(s.topics)
    ensures forall t :: t in old(s.topics) && t in ts ==> s.topics[t] == []
    ensures forall t :: t in old(s.topics) && t !in ts ==> s.topics[t] == old(s.topics)[t]
    ensures forall w :: w in s.state <==> w in old(s.state)
    ensures forall w :: w in old(s.state) ==>
      s.state[w] == if old(s.state)[w].None? && QueuedOn(old(s.topics), ts, w) then Some(m) else old(s.state)[w]
    ensures s.regs == old(s.regs)
    ensures forall w, k :: w in old(s.state) && old(s.state)[w].None? && 0 <= k < |ts| && ts[k] in s.regs[w] ==>
      s.state[w] == Some(m)
  {
    s.Send(ts, m);
  }

  /**
   The free function `receive(signal, topics)`: delegates to the broker and
   hands back the new receiver, whose settlement the caller awaits.
   */
  method Receive<M>(s: Signal<M>, ts: seq<Topic>) returns (w: Waiter)
    requires s.Valid()
    modifies s
    ensures s.Valid()
    ensures w == old(s.next) && s.next == old(s.next) + 1
    ensures s.state == old(s.state)[w := None]
    ensures s.topics == Registered(old(s.topics), ts, w)
    ensures s.log == old(s.log)
    ensures w !in old(s.state)
    ensures forall t :: t in s.topics <==> t in old(s.topics) || t in ts
    ensures forall t :: QueueOf(s.topics, t) == QueueOf(old(s.topics), t) + Copies(w, multiset(ts)[t])
    ensures s.regs == old(s.regs)[w := ts]
  {
    w := s.Receive(ts);
  }

  /**
   A receiver waiting on two topics that are sent one after the other gets
   the first message only; until the second topic is sent, the settled
   receiver still sits in that topic's queue.
   */
  method RaceBetweenTopics<M>(a: M, b: M)
  {
    var s := NewSignal<M>();
    var w := s.Receive(["x", "y"]);
    assert s.topics["x"] == [w] && s.topics["y"] == [w];
    ghost var before := s.topics;
    assert w in QueueOf(before, ["y"][0]);
    s.Send(["y"], a);
    assert s.state[w] == Some(a);
    assert s.topics["x"] == [w];
    s.Send(["x"], b);
    assert s.state[w] == Some(a);
    assert s.topics["x"] == [];
  }

  /**
   A receiver on `["x", "y"]` is not touched by a `send` on an unrelated
   topic, and the first `send` that names one of its topics delivers.
   */
  method FirstMatchingSendDelivers<M>(a: M, b: M)
  {
    var s := NewSignal<M>();
    var w := s.Receive(["x", "y"]);
    assert "z" !in s.topics;
    s.Send(["z"], a);
    assert s.state[w] == None;
    assert ["y"][0] in s.regs[w];
    s.Send(["y"], b);
    assert s.state[w] == Some(b);
  }
}
