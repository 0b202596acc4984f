/**
 The rate limiter as it is built: a linked queue of timestamps per key, an LRU list of the
 entries, and a table of reservations in flight. Each method is proved to take exactly the
 step that RateLimitModel gives for it.
 */
module RateLimiter {
  import opened RateLimitModel
  import opened RateLimitSweep
  import opened MapFacts

  class RequestNode {
    var next: RequestNode?
    const timestamp: int
    ghost const owner: RequestQueue
    ghost const position: int  // how many nodes the owner was given before this one

    constructor (timestamp: int, ghost owner: RequestQueue, ghost position: int)
      ensures next == null && this.timestamp == timestamp && this.owner == owner && this.position == position
    {
      next := null;
      this.timestamp := timestamp;
      this.owner := owner;
      this.position := position;
    }
  }

  ghost function Stamps(nodes: seq<RequestNode>): seq<int> {
    if nodes == [] then [] else [nodes[0].timestamp] + Stamps(nodes[1..])
  }

  lemma {:induction false} StampsAppend(nodes: seq<RequestNode>, node: RequestNode)
    ensures Stamps(nodes + [node]) == Stamps(nodes) + [node.timestamp]
  {
    if nodes == [] {
      assert nodes + [node] == [node];
    } else {
      assert (nodes + [node])[1..] == nodes[1..] + [node];
      StampsAppend(nodes[1..], node);
    }
  }

  lemma {:induction false} StampsLength(nodes: seq<RequestNode>)
    ensures |Stamps(nodes)| == |nodes|
  {
    if nodes != [] {
      StampsLength(nodes[1..]);
    }
  }

  /** A singly linked queue: `nodes` are its nodes from head to tail. */
  class RequestQueue {
    var head: RequestNode?
    var tail: RequestNode?
    var length: int
    ghost var nodes: seq<RequestNode>
    ghost var dropped: int
    ghost const key: string

    ghost predicate Linked()
      reads this, nodes
    {
      && length == |nodes|
      && head == (if nodes == [] then null else nodes[0])
      && (forall i :: 0 <= i < |nodes| - 1 ==> nodes[i].next == nodes[i + 1])
      && (nodes != [] ==> nodes[|nodes| - 1].next == null)
      && (forall i :: 0 <= i < |nodes| ==> nodes[i].owner == this && nodes[i].position == dropped + i)
    }

    ghost predicate Valid()
      reads this, nodes
    {
      Linked() && tail == (if nodes == [] then null else nodes[|nodes| - 1])
    }

    constructor (ghost key: string)
      ensures Valid() && nodes == [] && this.key == key
    {
      head, tail, length, nodes, dropped := null, null, 0, [], 0;
      this.key := key;
    }

    method Append(timestamp: int)
      requires Valid()
      modifies this, nodes
      ensures Valid()
      ensures |nodes| == |old(nodes)| + 1 && nodes[..|nodes| - 1] == old(nodes) && fresh(nodes[|nodes| - 1])
      ensures Stamps(nodes) == old(Stamps(nodes)) + [timestamp]
    {
      var request := new RequestNode(timestamp, this, dropped + length);
      if tail == null {
        head := request;
      } else {
        tail.next := request;
      }
      tail := request;
      length := length + 1;
      StampsAppend(nodes, request);
      nodes := nodes + [request];
    }

    /** Unlinks the oldest request: the body of the loop below. */
    method DropHead()
      requires Linked() && nodes != []
      modifies this, nodes
      ensures Linked() && nodes == old(nodes[1..]) && tail == old(tail)
      ensures Stamps(nodes) == old(Stamps(nodes))[1..]
    {
      var expired := head;
      assert |nodes| > 1 ==> nodes[0].next == nodes[1];
      head := expired.next;
      expired.next := null;
      length := length - 1;
      ghost var rest := nodes[1..];
      forall i | 0 <= i < |rest| - 1 ensures rest[i].next == rest[i + 1] {
        assert rest[i] == nodes[i + 1] && nodes[0].position != nodes[i + 1].position;
        assert old(nodes[i + 1].next) == nodes[i + 2];
      }
      nodes := rest;
      dropped := dropped + 1;
    }

    method RemoveExpired(now: int, duration: int)
      requires Valid()
      modifies this, nodes
      ensures Valid()
      ensures |nodes| <= |old(nodes)| && nodes == old(nodes)[|old(nodes)| - |nodes|..]
      ensures Stamps(nodes) == RateLimitModel.RemoveExpired(old(Stamps(nodes)), now, duration)
    {
      while head != null && now - head.timestamp >= duration
        invariant Linked()
        invariant nodes != [] ==> tail == nodes[|nodes| - 1]
        invariant head != null ==> Stamps(nodes) != [] && head.timestamp == Stamps(nodes)[0]
        invariant |nodes| <= |old(nodes)| && nodes == old(nodes)[|old(nodes)| - |nodes|..]
        invariant RateLimitModel.RemoveExpired(Stamps(nodes), now, duration)
                  == RateLimitModel.RemoveExpired(old(Stamps(nodes)), now, duration)
        decreases |nodes|
      {
        DropHead();
      }
      if head == null {
        tail := null;
      }
    }
  }

  /** One key's entry. The limiter updates it in place; the queue is the one object inside it. */
  datatype RateLimitEntry = RateLimitEntry(lastActive: int, duration: int, requests: RequestQueue)

  class InMemoryRateLimiter {
    var store: map<string, RateLimitEntry>
    var lru: seq<string>
    var reservations: map<string, int>
    var expirationDuration: int
    ghost var Repr: set<object>

    /** The queue stored under `key` is that key's own, whole and within the limiter. */
    ghost predicate Sound(key: string)
      reads this, Repr
      requires key in store
    {
      var queue := store[key].requests;
      && queue in Repr && queue.key == key
      && (forall i :: 0 <= i < |queue.nodes| ==> queue.nodes[i] in Repr)
      && queue.Valid()
    }

    ghost predicate Valid()
      reads this, Repr
    {
      this in Repr && (forall k :: k in store ==> Sound(k))
    }

    ghost function View(): Limiter
      reads this, Repr
      requires Valid()
    {
      Limiter(map k | k in store :: Entry(store[k].lastActive, store[k].duration, Stamps(store[k].requests.nodes)),
              lru, reservations, expirationDuration)
    }

    constructor (expirationDuration: int)
      ensures Valid() && fresh(Repr) && View() == Limiter(map[], [], map[], expirationDuration)
    {
      store, lru, reservations, this.expirationDuration := map[], [], map[], expirationDuration;
      Repr := {this};
    }

    /** Gives `key` an entry with an empty queue. */
    method NewEntry(key: string)
      requires Valid() && key !in store
      modifies this
      ensures Valid() && fresh(Repr - old(Repr)) && key in store
      ensures View() == old(View()).(store := old(View()).store[key := Entry(0, 0, [])])
    {
      var queue := new RequestQueue(key);
      store := store[key := RateLimitEntry(0, 0, queue)];
      Repr := Repr + {queue};
      forall k | k in store ensures Sound(k) {
        assert k != key ==> old(Sound(k));
      }
      MapUpdated(old(View()).store, View().store, key, Entry(0, 0, []));
    }

    /** Finds or creates the entry of `key` and makes it the most recently used. */
    method TouchEntry(key: string, now: int, duration: int)
      requires Valid()
      modifies this
      ensures Valid() && fresh(Repr - old(Repr)) && key in store
      ensures View() == Touched(old(View()), key, duration, now, Queued(old(View()), key))
    {
      if key !in store {
        RequeuedTouched(View(), key, duration, now);
        NewEntry(key);
      }
      Stamp(key, now, duration);
    }

    /** Changing the limiter's own fields, but not which queue a key has, leaves every queue sound. */
    twostate lemma QueuesKept()
      requires old(Valid()) && Repr == old(Repr)
      requires forall k :: k in store ==> k in old(store) && store[k].requests == old(store[k].requests)
      requires forall q: RequestQueue :: q in Repr ==> unchanged(q)
      requires forall n: RequestNode :: n in Repr ==> unchanged(n)
      ensures Valid()
    {
      forall k | k in store ensures Sound(k) {
        assert old(Sound(k));
      }
    }

    /** Notes the last use of an entry and the window it was used with, and moves it to the front. */
    method Stamp(key: string, now: int, duration: int)
      requires Valid() && key in store
      modifies this`store, this`lru
      ensures Valid() && key in store
      ensures View() == Touched(old(View()), key, duration, now, Queued(old(View()), key))
    {
      lru := [key] + Without(lru, key);
      store := store[key := store[key].(lastActive := now, duration := duration)];
      QueuesKept();
      MapUpdated(old(View()).store, View().store, key, Entry(now, duration, Queued(old(View()), key)));
    }

    /** Touches the entry of `key` and drops its expired requests. */
    method Slide(key: string, now: int, duration: int)
      requires Valid()
      modifies Repr
      ensures Valid() && fresh(Repr - old(Repr)) && key in store
      ensures View() == Touched(old(View()), key, duration, now, Window(old(View()), key, duration, now))
      ensures store[key].requests.length == |Window(old(View()), key, duration, now)|
      ensures reservations == old(reservations)
    {
      ghost var l := View();
      TouchEntry(key, now, duration);
      assert Sound(key);
      TrimEntry(key, Unix(now), duration);
      RequeuedOnce(l, key, duration, now, Queued(l, key), Window(l, key, duration, now));
    }

    /** Work on the queue of one key, and on nothing else, leaves the other entries whole. */
    twostate lemma OthersUnaffected(key: string)
      requires old(Valid()) && key in store && store == old(store) && old(Repr) <= Repr
      requires forall q: RequestQueue :: q in old(Repr) && q != store[key].requests ==> unchanged(q)
      requires forall n: RequestNode :: n in old(Repr) && n.owner != store[key].requests ==> n.next == old(n.next)
      ensures forall k :: k in store && k != key ==> Sound(k) && store[k].requests.nodes == old(store[k].requests.nodes)
    {
      forall k | k in store && k != key
        ensures Sound(k) && store[k].requests.nodes == old(store[k].requests.nodes)
      {
        var queue := store[k].requests;
        assert old(Sound(k)) && old(Sound(key));
        assert queue != store[key].requests;
        assert forall i :: 0 <= i < |queue.nodes| ==> queue.nodes[i].owner == queue;
        assert queue.Linked();
      }
    }

    /** Drops the expired requests of one key; nothing else of the limiter changes. */
    method TrimEntry(key: string, second: int, duration: int)
      requires Valid() && key in store
      modifies store[key].requests, store[key].requests.nodes
      ensures Valid()
      ensures store[key].requests.length == |Queued(View(), key)|
      ensures View() == Requeued(old(View()), key, RateLimitModel.RemoveExpired(Queued(old(View()), key), second, duration))
    {
      assert Sound(key);
      store[key].requests.RemoveExpired(second, duration);
      StampsLength(store[key].requests.nodes);
      OthersUnaffected(key);
      assert Sound(key);
      MapUpdated(old(View()).store, View().store, key, View().store[key]);
    }

    /** Appends to the queue of one key; the other queues keep their nodes. */
    method AppendTo(key: string, second: int)
      requires Valid() && key in store
      modifies this`Repr, store[key].requests, store[key].requests.nodes
      ensures Valid() && fresh(Repr - old(Repr))
      ensures forall k :: k in store && k != key ==> store[k].requests.nodes == old(store[k].requests.nodes)
      ensures Stamps(store[key].requests.nodes) == old(Stamps(store[key].requests.nodes)) + [second]
    {
      assert Sound(key);
      ghost var queue := store[key].requests;
      store[key].requests.Append(second);
      Repr := Repr + {queue.nodes[|queue.nodes| - 1]};
      OthersUnaffected(key);
      assert Sound(key) by {
        forall i | 0 <= i < |queue.nodes| ensures queue.nodes[i] in Repr {
          assert i < |queue.nodes| - 1 ==> queue.nodes[i] == old(queue.nodes)[i];
        }
      }
    }

    /** Records one accepted request of a key; nothing else of the limiter changes. */
    method RecordRequest(key: string, second: int)
      requires Valid() && key in store
      modifies this`Repr, store[key].requests, store[key].requests.nodes
      ensures Valid() && fresh(Repr - old(Repr))
      ensures View() == Requeued(old(View()), key, Queued(old(View()), key) + [second])
    {
      assert Sound(key);
      AppendTo(key, second);
      MapUpdated(old(View()).store, View().store, key, View().store[key]);
    }

    method Request(key: string, maxRequestNum: int, duration: int, now: int) returns (ok: bool)
      requires Valid()
      modifies Repr
      ensures Valid() && fresh(Repr - old(Repr))
      ensures (View(), ok) == RequestStep(old(View()), key, maxRequestNum, duration, now)
    {
      if maxRequestNum <= 0 {
        return false;
      }
      ghost var l := View();
      Slide(key, now, duration);
      if store[key].requests.length >= maxRequestNum {
        return false;
      }
      assert Sound(key);
      RecordRequest(key, Unix(now));
      ghost var window := Window(l, key, duration, now);
      RequeuedOnce(l, key, duration, now, window, window + [Unix(now)]);
      return true;
    }

    method SetReservations(table: map<string, int>)
      requires Valid()
      modifies this`reservations
      ensures Valid() && View() == old(View()).(reservations := table)
    {
      reservations := table;
      forall k | k in store ensures Sound(k) {
        assert old(Sound(k));
      }
      assert View().store == old(View()).store;
    }

    /** Takes a place among the reservations in flight, if there is one. */
    method TakePlace(key: string, maxRequests: int, duration: int, now: int) returns (ok: bool)
      requires Valid()
      modifies Repr
      ensures Valid() && fresh(Repr - old(Repr))
      ensures (View(), ok) == ReserveStep(old(View()), key, maxRequests, duration, now)
    {
      if maxRequests <= 0 {
        return false;
      }
      ghost var l := View();
      Slide(key, now, duration);
      ghost var touched := View();
      var held := if key in reservations then reservations[key] else 0;
      assert held == Held(l, key);
      if store[key].requests.length >= maxRequests || held >= maxRequests - store[key].requests.length {
        return false;
      }
      SetReservations(reservations[key := held + 1]);
      assert View() == touched.(reservations := l.reservations[key := held + 1]);
      return true;
    }

    method Reserve(key: string, maxRequests: int, duration: int, now: int) returns (r: RateLimitReservation?)
      requires Valid()
      modifies Repr
      ensures Valid() && fresh(Repr - old(Repr))
      ensures (View(), r != null) == ReserveStep(old(View()), key, maxRequests, duration, now)
      ensures r != null ==>
                fresh(r) && r !in Repr && !r.completed && r.limiter == this && r.key == key && r.duration == duration
    {
      var ok := TakePlace(key, maxRequests, duration, now);
      if !ok {
        return null;
      }
      return new RateLimitReservation(this, key, duration);
    }

    /** The critical section of Complete. */
    method Settle(key: string, duration: int, success: bool, now: int)
      requires Valid()
      modifies Repr
      ensures Valid() && fresh(Repr - old(Repr))
      ensures View() == CompleteStep(old(View()), key, duration, success, now)
    {
      var left := (if key in reservations then reservations[key] else 0) - 1;
      SetReservations(if left == 0 then reservations - {key} else reservations[key := left]);
      assert View() == old(View()).(reservations := Release(old(View()).reservations, key));
      if success {
        RecordSuccess(key, duration, now);
      }
    }

    /** Drops the key at position `n` of the list. */
    method Evict(n: nat)
      requires Valid() && n < |lru| && lru[n] in store
      modifies this`store, this`lru
      ensures Valid()
      ensures View() == old(View()).(store := old(View()).store - {old(lru)[n]}, lru := old(lru)[..n] + old(lru)[n + 1..])
    {
      store := store - {lru[n]};
      lru := lru[..n] + lru[n + 1..];
      forall k | k in store ensures Sound(k) {
        assert old(Sound(k));
      }
      MapRemoved(old(View()).store, View().store, old(lru)[n]);
    }

    /** One round of the sweep. */
    method SweepEntry(n: nat, now: int)
      requires Valid() && 0 < n <= |lru| && lru[n - 1] in store
      modifies Repr
      ensures Valid() && Repr == old(Repr) && View() == SweptOne(old(View()), n, now)
    {
      var key := lru[n - 1];
      assert Sound(key);
      ghost var l := View();
      TrimEntry(key, Unix(now), store[key].duration);
      if store[key].requests.length == 0 {
        RequeuedEvicted(l, key);
        Evict(n - 1);
      }
    }

    /** The entry before position `n`: left alone if it is in use, swept if it is idle. */
    method SweepNext(n: nat, now: int) returns (idle: bool)
      requires Valid() && 0 < n <= |lru| && lru[n - 1] in store
      modifies Repr
      ensures Valid() && Repr == old(Repr)
      ensures idle <==> Idle(old(View()), old(lru)[n - 1], now)
      ensures View() == if idle then SweptOne(old(View()), n, now) else old(View())
    {
      idle := now - store[lru[n - 1]].lastActive >= expirationDuration;
      if idle {
        SweepEntry(n, now);
      }
    }

    /** The loop of the sweep, which stops at the first entry in use. */
    method SweepLoop(now: int, ghost steps: seq<Limiter>, ghost swept: Limiter)
      requires Valid() && |steps| == |lru| + 1 && View() == steps[|lru|]
      requires forall i: nat :: i < |steps| ==> OnTheWay(steps, i, now, swept)
      modifies Repr
      ensures Valid() && Repr == old(Repr) && View() == swept
    {
      var n: nat := |lru|;
      while n > 0
        invariant Valid() && Repr == old(Repr)
        invariant n < |steps| && View() == steps[n]
      {
        assert OnTheWay(steps, n, now, swept);
        var idle := SweepNext(n, now);
        if !idle {
          return;
        }
        n := n - 1;
      }
      assert OnTheWay(steps, 0, now, swept);
    }

    /** The idle sweep, from the least recently used entry towards the front. */
    method DeleteExpiredEntries(now: int)
      requires Valid() && WellFormed(View())
      modifies Repr
      ensures Valid() && Repr == old(Repr)
      ensures View() == SweepStep(old(View()), now)
    {
      if expirationDuration <= 0 {
        return;
      }
      WalkLeadsToSweep(View(), now);
      SweepLoop(now, Steps(View(), now), SweepStep(View(), now));
    }

    method RecordSuccess(key: string, duration: int, now: int)
      requires Valid()
      modifies Repr
      ensures Valid() && fresh(Repr - old(Repr))
      ensures View() == Touched(old(View()), key, duration, now, Window(old(View()), key, duration, now) + [Unix(now)])
    {
      ghost var l := View();
      Slide(key, now, duration);
      assert Sound(key);
      RecordRequest(key, Unix(now));
      ghost var window := Window(l, key, duration, now);
      RequeuedOnce(l, key, duration, now, window, window + [Unix(now)]);
    }
  }

  class RateLimitReservation {
    const limiter: InMemoryRateLimiter
    const key: string
    const duration: int
    var completed: bool

    constructor (limiter: InMemoryRateLimiter, key: string, duration: int)
      ensures this.limiter == limiter && this.key == key && this.duration == duration && !completed
    {
      this.limiter := limiter;
      this.key := key;
      this.duration := duration;
      completed := false;
    }

    /** Takes effect once; every later call changes nothing. */
    method Complete(success: bool, now: int)
      requires limiter.Valid() && this !in limiter.Repr
      modifies this, limiter.Repr
      ensures limiter.Valid() && completed
      ensures limiter.View() ==
                if old(completed) then old(limiter.View())
                else CompleteStep(old(limiter.View()), key, duration, success, now)
    {
      if !completed {
        ghost var before := limiter.View();
        completed := true;
        assert limiter.Valid() && limiter.View() == before;
        limiter.Settle(key, duration, success, now);
      }
    }
  }

  lemma RequeuedOnce(l: Limiter, key: string, duration: int, now: int, queue: seq<int>, queue': seq<int>)
    ensures Queued(Touched(l, key, duration, now, queue), key) == queue
    ensures Requeued(Touched(l, key, duration, now, queue), key, queue') == Touched(l, key, duration, now, queue')
  {
    assert Requeued(Touched(l, key, duration, now, queue), key, queue').store == Touched(l, key, duration, now, queue').store;
  }

  lemma RequeuedEvicted(l: Limiter, key: string)
    ensures Requeued(l, key, []).store - {key} == l.store - {key}
  {
    MapRemoved(l.store, Requeued(l, key, []).store - {key}, key);
  }

  lemma RequeuedTouched(l: Limiter, key: string, duration: int, now: int)
    requires key !in l.store
    ensures
      var l' := l.(store := l.store[key := Entry(0, 0, [])]);
      Touched(l', key, duration, now, Queued(l', key)) == Touched(l, key, duration, now, Queued(l, key))
  {
    var l' := l.(store := l.store[key := Entry(0, 0, [])]);
    assert Touched(l', key, duration, now, []).store == Touched(l, key, duration, now, []).store;
  }

  ghost function Requeued(l: Limiter, key: string, queue: seq<int>): Limiter {
    if key in l.store then l.(store := l.store[key := l.store[key].(requests := queue)]) else l
  }
}
