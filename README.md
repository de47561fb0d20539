# sigmal: a verified model of the `Signal` topic broker

`Signal` is a small in-process topic broker. It keeps a map from topic name
to an ordered queue of receivers. `receive(topics)` creates one receiver,
which is the `resolve` callback of a fresh Promise. It appends that receiver
to the queue of every topic listed, and creates an empty queue for a topic
seen for the first time. `send(topics, message)` walks the given topics in
order. For each topic that already has an entry, it resolves every queued
receiver in queue order with `message` and then resets that queue to empty.
`newSignal`, `send` and `receive` are free functions that delegate to the
class.

The model is one Dafny module, `Sigmal`, in `sigmal.dfy`:

- `class Signal<M>` has the real fields `topics: map<Topic, seq<Waiter>>`
  (the JavaScript `Map`), `state: map<Waiter, Option<M>>` (the promise behind
  each receiver: pending, or settled with a message) and `next` (a counter
  for fresh receiver ids). It also has two ghost fields: `log`, every
  `resolve` call made so far, in order; and `regs`, the topics each receiver
  was registered on by its `receive` call.
- `Valid()` is the broker invariant `Inv` on those fields. The receivers are
  exactly the ids below `next`. Every queue holds only receivers. Each
  receiver's promise is resolved with the message of the first `resolve`
  call made on it, and is pending if there was none. This is the JavaScript
  rule that only the first `resolve` of a promise counts and a later one is
  a no-op. For a plain (non-thenable) message, being resolved with it means
  receiving it. Finally, a receiver that is still pending sits in the queue
  of every topic it was registered on, because a queue is reset only by a
  `send` that resolves all of it.
- Together these give single delivery: a receiver registered on topics `T`
  settles exactly once, with the message of the first `send` that names a
  topic of `T`. `Send` ensures the "at least" half (a pending receiver
  registered on a named topic now holds the message) and keeps a settled
  receiver's message (the "at most" half).
- `Receive` and `Send` are methods with the source's loops. `Receive` is
  `NewReceiver` (the new Promise) followed by `SubscribeAll` (its loop over
  the topics), one turn of which is `Subscribe`. `Send`'s inner `forEach` is
  `ResolveEach`, and one turn of its outer loop is `SendTopic`.
  Each method is proved against specification functions on values:
  `Registered`, `Drained`, `Deliveries`, `ResolvedAll` and `Calls`. The
  lemmas about those functions state what the broker promises.

The model keeps three quirks of the code:

- A topic repeated in `receive`'s list gets the receiver pushed once per
  occurrence.
- A receiver that fires through one topic stays in the queues of its other
  topics. A later `send` on such a topic resolves it again, which is a no-op.
- `send` never creates an entry for a topic.

A broker could collapse duplicate topics in a subscription and unlink a
settled waiter from all of its queues. This code does neither, and the model
follows the code. Single settlement still holds, because the promise ignores
every `resolve` after the first. `RaceBetweenTopics` shows this for a
receiver on `["x", "y"]` sent `y` and then `x`. It receives the first
message only, and it still sits in `x`'s queue until `x` is sent.
`FirstMatchingSendDelivers` shows the other half: a receiver on
`["x", "y"]` is untouched by a `send` on `z` and then receives the message
of a `send` on `y`.

## Model

| member | source | states |
|---|---|---|
| `Sigmal.Signal.constructor` | src/sigmal/signal.js:2-4 | a new broker has an empty topic map, no receiver and an empty resolve log, and satisfies the broker invariant |
| `Sigmal.NewSignal` | src/sigmal/signal.js:30-32 | `newSignal()` returns a fresh broker with no topics and no receivers |
| `Sigmal.Signal.Receive` | src/sigmal/signal.js:18-27 | returns a receiver that did not exist before, now pending and registered on exactly the listed topics; every other receiver keeps its state; no resolve call is made; each topic's queue is its old queue (empty if the topic had no entry) followed by the new receiver once per occurrence of the topic in the list; exactly the listed topics gain an entry; the invariant is kept |
| `Sigmal.Signal.NewReceiver` | src/sigmal/signal.js:19 | the Promise created by `receive` is a new receiver with the next id, pending and on no queue yet; topics and the resolve log are untouched; the invariant is kept |
| `Sigmal.Signal.SubscribeAll` | src/sigmal/signal.js:20-25 | the loop over `topics` leaves the topic map as `Registered` describes and records the topics, in order, as the receiver's registrations; no receiver changes state; the invariant is kept |
| `Sigmal.Signal.Subscribe` | src/sigmal/signal.js:21-24 | one topic: an entry is created when missing and the receiver is pushed at the end of its queue; nothing else changes; the invariant is kept |
| `Sigmal.Receive` | src/sigmal/signal.js:38-40 | the free `receive` delegates to the method and hands back the new pending receiver, which did not exist before; exactly the listed topics gain an entry, and each queue grows by the receiver once per occurrence of its topic in the list |
| `Sigmal.RegisteredKeys` | src/sigmal/signal.js:20-23 | after `receive(ts)` a topic has an entry exactly when it had one before or is named in `ts` |
| `Sigmal.RegisteredQueue` | src/sigmal/signal.js:20-24 | after `receive(ts)` every topic's queue is its previous queue followed by the receiver as many times as the topic occurs in `ts` (duplicates are kept; topics not named are untouched) |
| `Sigmal.Signal.Send` | src/sigmal/signal.js:6-16 | topics are processed in the caller's order; no entry is created or removed; every named topic with an entry ends with an empty queue and every other topic keeps its queue; every pending receiver queued on a named topic is settled with the message, and every other receiver (settled ones included) keeps its state; a receiver pending before the call and registered on a named topic holds the message afterwards; the resolve log grows by the calls of `Deliveries`, in order; the invariant is kept |
| `Sigmal.Send` | src/sigmal/signal.js:34-36 | the free `send` delegates to the method, with the same effect on topics, states and the resolve log: no entry is created or removed, named topics end empty, other queues are kept, and exactly the pending receivers queued on a named topic are settled with the message, which every pending receiver registered on a named topic then holds |
| `Sigmal.Signal.SendTopic` | src/sigmal/signal.js:8-14 | one topic: when it has an entry, its queued receivers are resolved in order and its queue becomes empty; when it has none, nothing changes |
| `Sigmal.Signal.ResolveEach` | src/sigmal/signal.js:10-12 | `forEach` over a queue calls `resolve` on each receiver in queue order: the log grows by exactly those calls, and the states become those of resolving them in that order |
| `Sigmal.DrainedAt` | src/sigmal/signal.js:8-13 | `send(ts)` keeps exactly the old set of entries, empties every named topic that had an entry, and leaves every other queue as it was |
| `Sigmal.DeliveriesHas` | src/sigmal/signal.js:7-12 | `send(ts)` resolves a receiver exactly when it is queued on some topic of `ts` (no cross-talk) |
| `Sigmal.DeliveriesKeepQueue` | src/sigmal/signal.js:7-12 | FIFO per topic: the whole queue of a named topic is resolved as one consecutive run, in subscription order |
| `Sigmal.DrainedDeliversNothing` | src/sigmal/signal.js:13 | a second `send` on the same topics, with no `receive` in between, resolves no receiver |
| `Sigmal.ResolvedAllAt` | src/sigmal/signal.js:10-12 | resolving a list of receivers with `m` settles with `m` exactly the pending ones among them; a settled receiver keeps its message; no receiver is created or removed |
| `Sigmal.SendSettles` | src/sigmal/signal.js:7-12 | after `send(ts, m)` every pending receiver queued on a topic of `ts` holds `m`; a settled receiver keeps its first message even when `ts` reaches it through a topic it still lingers on; every other receiver is unchanged |
| `Sigmal.SendKeepsQueued` | src/sigmal/signal.js:7-14 | `send` keeps every still-pending receiver queued on all of its topics, and settles with the message every pending receiver registered on a topic it names: no receiver is skipped by the first `send` that names one of its topics |
| `Sigmal.InvNewReceiver` | src/sigmal/signal.js:19 | creating a pending receiver with the next id, registered on no topic, keeps the broker invariant |
| `Sigmal.InvPush` | src/sigmal/signal.js:21-24 | pushing a receiver onto a topic's queue (creating the entry if needed) and recording the topic among its registrations keeps the broker invariant |
| `Sigmal.InvResolve` | src/sigmal/signal.js:11 | one logged `resolve` call on a receiver keeps the broker invariant, including first-call-wins settlement |
| `Sigmal.InvDrain` | src/sigmal/signal.js:13 | resetting a topic's queue keeps the broker invariant once every receiver in it is settled |
| `Sigmal.FirstMessageAppend` | src/sigmal/signal.js:11 | a further `resolve` call changes a receiver's first message only if it had none and the call is made on it |

## Left out

- The Promise machinery and microtask scheduling are not modelled. Nothing
  says when continuations run after `resolve`. Settlement is a state change
  plus a ghost log entry.
- The `reject` callback is captured but never called by the broker itself.
- A message that is a thenable is adopted rather than delivered, and a
  rejected one rejects the receiver; a `topics` argument that cannot be
  iterated rejects `receive`'s promise and makes `send` throw. The model
  takes `seq<Topic>` and treats every message as a plain value, so these
  failure paths are not modelled.
- In the code, `receive` returns a Promise, and the `async` free function
  awaits its message. In the model, both return the receiver id, and the
  message is read from `state` once it is settled.
- The code pushes a new `{resolve, reject}` object for each occurrence of a
  topic. All of these objects share one promise, so the model identifies
  them all by one receiver id.
- Messages are an opaque type parameter: the broker itself does not inspect
  or copy them, it only hands them to `resolve`. What `resolve` does with a
  thenable is left out, as said above.
- Topics are strings. A JavaScript `Map` accepts keys of any type, compared
  by `SameValueZero`; that is not modelled.
- The code has no cancellation, shutdown, topic deletion, eager unlinking
  of settled receivers or topic creation on `send`, so the model has none.
