/** The bridge in its own form (src/indikit/web/bridge.py): mutable slots, a deque, a
    dictionary of overwritable slots, and a set of subscriptions. Each method is proved
    to take the step `Fanout` gives it, so its invariant holds of the objects. */
module Bridge {
  import opened Wire
  import opened Merge
  import opened Store
  import opened Coalescing
  import opened Fanout
  import opened FanoutSafety

  /** A place in a browser's queue, an object so that what it holds can be overwritten. */
  class Slot {
    var frame: Frame
    const key: Option<Key>

    constructor (frame: Frame, key: Option<Key>)
      ensures this.frame == frame && this.key == key
    {
      this.frame, this.key := frame, key;
    }
  }

  /** `contents` is what the queued slots hold, in order. */
  ghost predicate Holds(queue: seq<Slot>, contents: seq<Queued>)
    reads queue
  {
    |contents| == |queue| && forall i :: HoldsAt(queue, contents, i)
  }

  ghost predicate HoldsAt(queue: seq<Slot>, contents: seq<Queued>, i: int)
    reads queue
  {
    0 <= i < |queue| && i < |contents| ==> contents[i] == Queued(queue[i].frame, queue[i].key)
  }

  ghost predicate OwnedAt(queue: seq<Slot>, repr: set<Slot>, i: int) {
    0 <= i < |queue| ==> queue[i] in repr
  }

  /** The last slot of a key, which is a matter of the slots and not of their frames. */
  ghost predicate IsLast(slots: seq<Slot>, k: Key, at: int) {
    && 0 <= at < |slots| && slots[at].key == Some(k)
    && forall i :: at < i < |slots| ==> slots[i].key != Some(k)
  }

  ghost predicate LastIs(slots: seq<Slot>, k: Key, slot: Slot) {
    exists at :: IsLast(slots, k, at) && slots[at] == slot
  }

  ghost predicate Apart(slots: seq<Slot>, i: int, j: int) {
    0 <= i < j < |slots| ==> slots[i] != slots[j]
  }

  ghost predicate LinkedAt(slots: seq<Slot>, coalescible: map<Key, Slot>, k: Key) {
    k in coalescible ==> LastIs(slots, k, coalescible[k])
  }

  /** No slot is queued twice, and a coalescible entry is the last slot of its key. */
  ghost predicate Linked(slots: seq<Slot>, coalescible: map<Key, Slot>) {
    && (forall i, j :: Apart(slots, i, j))
    && (forall k :: LinkedAt(slots, coalescible, k))
  }

  lemma LastSlot(slots: seq<Slot>, contents: seq<Queued>, k: Key, at: nat)
    requires Holds(slots, contents) && IsLast(slots, k, at)
    ensures Queues(contents, k) && LastOf(contents, k) == at
  {
    forall i | at <= i < |slots| ensures contents[i].key == slots[i].key {
      assert HoldsAt(slots, contents, i);
    }
    LastOfUnique(contents, at, k);
  }

  lemma LinkedAppend(slots: seq<Slot>, coalescible: map<Key, Slot>, slot: Slot)
    requires Linked(slots, coalescible) && slot !in slots
    requires slot.key.Some? ==> slot.key.value !in coalescible
    ensures Linked(slots + [slot],
                   if slot.key.Some? then coalescible[slot.key.value := slot] else coalescible)
  {
    var after := if slot.key.Some? then coalescible[slot.key.value := slot] else coalescible;
    forall k ensures LinkedAt(slots + [slot], after, k) {
      assert LinkedAt(slots, coalescible, k);
      if slot.key == Some(k) {
        assert IsLast(slots + [slot], k, |slots|);
      } else if k in coalescible {
        var at :| IsLast(slots, k, at) && slots[at] == coalescible[k];
        assert IsLast(slots + [slot], k, at);
      }
    }
    forall i, j ensures Apart(slots + [slot], i, j) {
      assert Apart(slots, i, j);
    }
  }

  lemma LinkedPop(slots: seq<Slot>, coalescible: map<Key, Slot>)
    requires Linked(slots, coalescible) && slots != []
    ensures var key := slots[0].key;
            Linked(slots[1..],
                   if key.Some? && key.value in coalescible && coalescible[key.value] == slots[0]
                   then coalescible - {key.value} else coalescible)
  {
    var key := slots[0].key;
    var after := if key.Some? && key.value in coalescible && coalescible[key.value] == slots[0]
                 then coalescible - {key.value} else coalescible;
    forall k ensures LinkedAt(slots[1..], after, k) {
      assert LinkedAt(slots, coalescible, k);
      if k in after {
        var at :| IsLast(slots, k, at) && slots[at] == coalescible[k];
        assert IsLast(slots[1..], k, at - 1);
      }
    }
    forall i, j ensures Apart(slots[1..], i, j) {
      assert Apart(slots, i + 1, j + 1);
    }
  }

  lemma LinkedForget(slots: seq<Slot>, coalescible: map<Key, Slot>, after: map<Key, Slot>)
    requires Linked(slots, coalescible)
    requires forall k :: k in after ==> k in coalescible && after[k] == coalescible[k]
    ensures Linked(slots, after)
  {
    forall k ensures LinkedAt(slots, after, k) {
      assert LinkedAt(slots, coalescible, k);
    }
  }

  class Subscription {
    // What the pump's three loops have still to send.
    var preamble: seq<Frame>
    var seedVectors: seq<LiveVector>
    var seedFrames: seq<Frame>
    var queue: seq<Slot>
    var coalescible: map<Key, Slot>
    var closed: bool
    var droppedForBacklog: bool
    ghost var repr: set<Slot>
    ghost var contents: seq<Queued>
    ghost var opening: seq<Frame>
    ghost var offered: seq<Frame>
    ghost var popped: seq<Frame>
    ghost var joined: nat
    ghost var replacedBlobs: nat

    constructor (preamble: seq<Frame>, seedVectors: seq<LiveVector>, seedFrames: seq<Frame>, ghost joined: nat)
      ensures Valid() && repr == {}
      ensures State() == Sub(preamble, seedVectors, seedFrames, [], Traffic([], [], EMPTY), true, false, joined, 0)
    {
      this.preamble, this.seedVectors, this.seedFrames := preamble, seedVectors, seedFrames;
      queue, coalescible, closed, droppedForBacklog := [], map[], false, false;
      repr, contents, opening, offered, popped, this.joined, replacedBlobs := {}, [], [], [], [], joined, 0;
    }

    ghost function Queue(): Queue
      reads this
    {
      Coalescing.Queue(contents, coalescible.Keys)
    }

    ghost function State(): Sub
      reads this
    {
      Sub(preamble, seedVectors, seedFrames, opening, Traffic(offered, popped, Queue()),
          !closed, droppedForBacklog, joined, replacedBlobs)
    }

    ghost predicate Valid()
      reads this, repr
    {
      && (droppedForBacklog ==> closed)
      && (forall i :: OwnedAt(queue, repr, i))
      && Linked(queue, coalescible)
      && (assert forall slot :: slot in queue ==> slot in repr by {
            forall i | 0 <= i < |queue| ensures queue[i] in repr { assert OwnedAt(queue, repr, i); }
          }
          Holds(queue, contents))
    }

    /** Queue at the back, or overwrite in place where the key still allows it. */
    method Enqueue(frame: Frame, key: Option<Key>) returns (replaced: bool)
      requires Valid()
      modifies this`queue, this`coalescible, this`contents, this`repr, repr
      ensures Valid() && Queue() == Enqueued(old(Queue()), frame, key)
      ensures replaced == Overwrites(old(Queue()), key)
      ensures |queue| == old(|queue|) + (if replaced then 0 else 1) && (key.Some? ==> key.value in coalescible)
      ensures fresh(repr - old(repr))
    {
      if key.Some? && key.value in coalescible {
        assert LinkedAt(queue, coalescible, key.value);
        ghost var at :| IsLast(queue, key.value, at) && queue[at] == coalescible[key.value];
        LastSlot(queue, contents, key.value, at);
        assert OwnedAt(queue, repr, at);
        var queued := coalescible[key.value];
        queued.frame := frame;
        contents := contents[at := Queued(frame, key)];
        forall i ensures HoldsAt(queue, contents, i) {
          assert old(HoldsAt(queue, contents, i)) && Apart(queue, i, at) && Apart(queue, at, i);
        }
        return true;
      }
      var slot := new Slot(frame, key);
      LinkedAppend(queue, coalescible, slot);
      queue, repr, contents := queue + [slot], repr + {slot}, contents + [Queued(frame, key)];
      if key.Some? {
        coalescible := coalescible[key.value := slot];
      }
      replaced := false;
      forall i ensures HoldsAt(queue, contents, i) && OwnedAt(queue, repr, i) {
        assert old(HoldsAt(queue, contents, i) && OwnedAt(queue, repr, i));
      }
    }

    /** Queue one frame and keep the books on it. */
    method Accept(frame: Frame, key: Option<Key>, weighty: bool) returns (replaced: bool)
      requires Valid()
      modifies this`queue, this`coalescible, this`contents, this`repr, this`offered, this`replacedBlobs, repr
      ensures Valid() && Queue() == Enqueued(old(Queue()), frame, key)
      ensures replaced == Overwrites(old(Queue()), key)
      ensures offered == old(offered) + [frame]
      ensures replacedBlobs == old(replacedBlobs) + if replaced && weighty then 1 else 0
      ensures fresh(repr - old(repr))
    {
      offered := offered + [frame];
      replaced := Enqueue(frame, key);
      replacedBlobs := replacedBlobs + if replaced && weighty then 1 else 0;
    }

    /** Queue one frame; a queue past the backlog is never drained again. */
    method Take(frame: Frame, key: Option<Key>, weighty: bool, backlog: nat)
      returns (replaced: bool, overrun: bool)
      requires Valid() && !closed
      modifies this`queue, this`coalescible, this`contents, this`repr, this`offered, this`replacedBlobs
      modifies this`closed, this`droppedForBacklog, repr
      ensures Valid() && fresh(repr - old(repr))
      ensures Took(old(State()), State(), frame, key, weighty, backlog)
      ensures replacedBlobs == old(replacedBlobs) + if replaced && weighty then 1 else 0
      ensures overrun == closed
    {
      replaced := Accept(frame, key, weighty);
      overrun := |queue| > backlog;
      if overrun {
        Close(true);
      }
    }

    /** The pump will not drain this queue again. */
    method Close(overrun: bool)
      requires Valid()
      modifies this`closed, this`droppedForBacklog
      ensures Valid() && closed && droppedForBacklog == (old(droppedForBacklog) || overrun)
      ensures State() == old(State()).(live := false, droppedForBacklog := old(droppedForBacklog) || overrun)
    {
      closed := true;
      droppedForBacklog := droppedForBacklog || overrun;
    }

    /** Forget the coalescible slots of a property, or of a whole device. */
    method Invalidate(device: string, name: Option<string>)
      requires Valid()
      modifies this`coalescible
      ensures Valid() && Queue() == Invalidated(old(Queue()), device, name)
    {
      ghost var before := coalescible;
      match name {
        case None =>
          coalescible := map k | k in coalescible && k.0 != device :: coalescible[k];
        case Some(n) =>
          coalescible := coalescible - {(device, n)};
      }
      assert coalescible.Keys == Invalidated(old(Queue()), device, name).coalescible;
      LinkedForget(queue, before, coalescible);
    }

    /** The head leaves, and with it its key if no slot behind it has the same one. */
    method Pop() returns (frame: Frame)
      requires Valid() && queue != []
      modifies this`queue, this`coalescible, this`contents
      ensures Valid() && Queue() == Popped(old(Queue()))
      ensures frame == old(Queue()).slots[0].frame && queue == old(queue)[1..]
    {
      LinkedPop(queue, coalescible);
      if queue[0].key.Some? {
        LastIsHead(queue, contents, coalescible, queue[0].key.value);
      }
      var slot := queue[0];
      assert HoldsAt(queue, contents, 0);
      queue, contents := queue[1..], contents[1..];
      if slot.key.Some? && slot.key.value in coalescible && coalescible[slot.key.value] == slot {
        coalescible := coalescible - {slot.key.value};
      }
      frame := slot.frame;
      forall i ensures HoldsAt(queue, contents, i) && OwnedAt(queue, repr, i) {
        assert old(HoldsAt(queue, contents, i + 1) && OwnedAt(queue, repr, i + 1));
      }
    }

    /** The next frame the pump hands to the socket (src/indikit/web/bridge.py:483-494):
        a seeded vector is serialised only now, as it stands. */
    method PumpStep(ghost heap: map<LiveVector, Vector>) returns (frame: Frame)
      requires Valid() && HasPending(State())
      requires forall ref :: ref in seedVectors ==> ref in heap && heap[ref] == ref.Value()
      modifies this`preamble, this`seedVectors, this`seedFrames, this`opening, this`popped
      modifies this`queue, this`coalescible, this`contents
      ensures Valid() && frame == NextFrame(heap, old(State())) && State() == Pumped(heap, old(State()))
    {
      hide Linked, Popped, OwnedAt;
      if preamble != [] {
        frame, preamble := preamble[0], preamble[1..];
        opening := opening + [frame];
      } else if seedVectors != [] {
        frame, seedVectors := Indi(DefVector(seedVectors[0].Value())), seedVectors[1..];
        opening := opening + [frame];
      } else if seedFrames != [] {
        frame, seedFrames := seedFrames[0], seedFrames[1..];
        opening := opening + [frame];
      } else {
        frame := Pop();
        popped := popped + [frame];
      }
    }
  }

  /** A coalescible head slot is the last of its key exactly when no later slot is. */
  lemma LastIsHead(slots: seq<Slot>, contents: seq<Queued>, coalescible: map<Key, Slot>, k: Key)
    requires Linked(slots, coalescible) && Holds(slots, contents) && slots != [] && slots[0].key == Some(k)
    ensures Queues(contents, k)
    ensures k in coalescible ==> (coalescible[k] == slots[0] <==> !Queues(contents[1..], k))
  {
    assert HoldsAt(slots, contents, 0) && LinkedAt(slots, coalescible, k);
    HeadQueues(contents, k);
    if k in coalescible {
      var at :| IsLast(slots, k, at) && slots[at] == coalescible[k];
      LastSlot(slots, contents, k, at);
      HeadPops(contents, k);
      assert Apart(slots, 0, at);
    }
  }

  lemma {:induction false} HeadQueues(slots: seq<Queued>, k: Key)
    requires slots != [] && slots[0].key == Some(k)
    ensures Queues(slots, k)
  {
    if |slots| > 1 {
      HeadQueues(slots[..|slots| - 1], k);
    }
  }

  // ------------------------------------------------------------------------ //
  // The fan-out                                                               //
  // ------------------------------------------------------------------------ //

  /** The property a frame may coalesce onto: only a `set` names one. */
  function CoalesceKey(f: Frame): Option<Key> {
    if f.Indi? && f.msg.SetVector? then Some((f.msg.vector.device, f.msg.vector.name)) else None
  }

  /** What a frame forbids to be overtaken: a `def` its property, a `del` its target. */
  function InvalidateTarget(f: Frame): Option<(string, Option<string>)> {
    if f.Indi? && f.msg.DefVector? then Some((f.msg.vector.device, Some(f.msg.vector.name)))
    else if f.Indi? && f.msg.DelProperty? then Some((f.msg.device, f.msg.name))
    else None
  }

  function Shielded(s: Sub, f: Frame): Sub {
    match InvalidateTarget(f)
    case None => s
    case Some((device, name)) => s.(traffic := s.traffic.(queue := Invalidated(s.traffic.queue, device, name)))
  }

  /** The arguments a frame is broadcast with (src/indikit/web/bridge.py:650-686). */
  ghost predicate Routed(f: Frame, coalesce: Option<Key>, invalidate: Option<(string, Option<string>)>, weighty: bool) {
    coalesce == CoalesceKey(f) && invalidate == InvalidateTarget(f) && weighty == IsBlobSet(f)
  }

  /** One subscription before and after a frame was queued for it under a key. */
  ghost predicate Took(s: Sub, s': Sub, f: Frame, key: Option<Key>, weighty: bool, backlog: nat) {
    if !s.live then s' == s
    else
      && s'.preamble == s.preamble && s'.seeds == s.seeds && s'.seedFrames == s.seedFrames
      && s'.opening == s.opening && s'.joined == s.joined && s'.traffic.popped == s.traffic.popped
      && s'.traffic.offered == s.traffic.offered + [f]
      && s'.traffic.queue == Enqueued(s.traffic.queue, f, key)
      && s'.live == (|s'.traffic.queue.slots| <= backlog)
      && s'.droppedForBacklog == (s.droppedForBacklog || !s'.live)
      && s'.replacedBlobs == s.replacedBlobs + if weighty && Overwrites(s.traffic.queue, key) then 1 else 0
  }

  /** Invalidating and then delivering is what a browser's step for the frame does. */
  lemma TookIsReceive(s: Sub, s': Sub, f: Frame, backlog: nat)
    requires s.live && Took(Shielded(s, f), s', f, CoalesceKey(f), IsBlobSet(f), backlog)
    ensures s' == Receive(s, f, backlog)
  {
    assert Enqueued(Shielded(s, f).traffic.queue, f, CoalesceKey(f)) == Offered(s.traffic.queue, f);
    assert IsBlobSet(f) ==> Shielded(s, f) == s;
  }

  ghost function StatesOf(attached: seq<Subscription>): seq<Sub>
    reads attached
  {
    seq(|attached|, i requires 0 <= i < |attached| reads attached => attached[i].State())
  }

  ghost function SlotsAt(attached: seq<Subscription>, i: int): set<Slot>
    reads attached
  {
    if 0 <= i < |attached| then attached[i].repr else {}
  }

  ghost predicate ApartAt(attached: seq<Subscription>, i: int, j: int)
    reads attached
  {
    0 <= i < j < |attached| ==> attached[i] != attached[j] && attached[i].repr !! attached[j].repr
  }

  ghost predicate ValidAt(attached: seq<Subscription>, i: int)
    reads attached, SlotsAt(attached, i)
  {
    0 <= i < |attached| ==> attached[i].Valid()
  }

  ghost predicate OwnsAt(attached: seq<Subscription>, slots: set<Slot>, i: int)
    reads attached
  {
    SlotsAt(attached, i) <= slots
  }

  /** No subscription is attached twice, no slot is in two queues, and each is valid. */
  ghost predicate Separate(attached: seq<Subscription>, slots: set<Slot>)
    reads attached, slots
  {
    && (forall i, j :: ApartAt(attached, i, j))
    && (forall i :: OwnsAt(attached, slots, i))
    && (forall i :: OwnsAt(attached, slots, i) ==> ValidAt(attached, i))
  }

  twostate lemma SubUntouched(s: Subscription)
    requires old(s.Valid()) && unchanged(s) && unchanged(s.repr)
    ensures s.Valid() && s.State() == old(s.State())
  {
  }

  ghost function Open(attached: seq<Subscription>): set<Subscription>
    reads attached
  {
    set s | s in attached && !s.closed
  }

  class Bridge {
    const store: PyStore
    const history: nat
    const backlog: nat
    var subs: set<Subscription>
    var messages: seq<Frame>
    var droppedSlowSinks: nat
    var coalescedBlobs: nat
    ghost var attached: seq<Subscription>
    ghost var slots: set<Slot>
    ghost var log: seq<Frame>

    constructor (store: PyStore, history: nat, backlog: nat)
      requires store.byDevice == map[]
      ensures this.store == store && this.history == history && this.backlog == backlog
      ensures subs == {} && attached == [] && slots == {} && log == []
      ensures messages == [] && droppedSlowSinks == 0 && coalescedBlobs == 0
    {
      this.store, this.history, this.backlog := store, history, backlog;
      subs, messages, droppedSlowSinks, coalescedBlobs := {}, [], 0, 0;
      attached, slots, log := [], {}, [];
    }

    /** One subscription's own objects were written to, and slots of its own added. */
    twostate lemma OneMoved(i: nat)
      requires old(Separate(attached, slots)) && attached == old(attached) && slots == old(slots) && i < |attached|
      requires attached[i].Valid() && fresh(attached[i].repr - old(attached[i].repr))
      requires unchanged(set s | s in attached && s != attached[i])
      requires unchanged(slots - old(attached[i].repr))
      ensures Separate(attached, slots + attached[i].repr)
      ensures StatesOf(attached) == old(StatesOf(attached))[i := attached[i].State()]
    {
      hide Linked, Holds, Subscription.Valid;
      assert old(OwnsAt(attached, slots, i));
      forall j | 0 <= j < |attached| && j != i
        ensures attached[j] != attached[i] && attached[j].repr !! attached[i].repr && attached[j].Valid()
        ensures attached[j].repr == old(attached[j].repr) <= slots && attached[j].State() == old(attached[j].State())
      {
        assert old(ApartAt(attached, i, j) && ApartAt(attached, j, i) && OwnsAt(attached, slots, j) && ValidAt(attached, j));
        assert attached[j] in attached && old(attached[j].repr !! attached[i].repr && attached[j].repr <= slots);
        SubUntouched(attached[j]);
      }
      forall a, b ensures ApartAt(attached, a, b) {
        assert old(ApartAt(attached, a, b));
        assert a != i && b != i && 0 <= a < b < |attached| ==>
                 attached[a].repr == old(attached[a].repr) && attached[b].repr == old(attached[b].repr);
      }
      forall j ensures OwnsAt(attached, slots + attached[i].repr, j) && ValidAt(attached, j) {
      }
    }

    /** The open browsers are the others as before, and this one if it still is. */
    twostate lemma OneOpen(i: nat)
      requires attached == old(attached) && i < |attached|
      requires StatesOf(attached) == old(StatesOf(attached))[i := attached[i].State()]
      requires old(attached[i].closed) ==> attached[i].closed
      ensures Open(attached)
              == if attached[i].closed && !old(attached[i].closed) then old(Open(attached)) - {attached[i]}
                 else old(Open(attached))
    {
      forall s | s in attached && s != attached[i] ensures s.closed == old(s.closed) {
        var j :| 0 <= j < |attached| && attached[j] == s;
        assert StatesOf(attached)[j] == old(StatesOf(attached)[j]);
      }
    }

    /** Take a frame for one browser and keep the bridge's counts; an overrun detaches it
        (src/indikit/web/bridge.py:513-562). */
    method Deliver(sub: Subscription, frame: Frame, key: Option<Key>, weighty: bool)
      requires sub.Valid()
      modifies this`subs, this`droppedSlowSinks, this`coalescedBlobs
      modifies sub`queue, sub`coalescible, sub`contents, sub`repr, sub`offered, sub`replacedBlobs
      modifies sub`closed, sub`droppedForBacklog, sub.repr
      ensures sub.Valid() && fresh(sub.repr - old(sub.repr))
      ensures Took(old(sub.State()), sub.State(), frame, key, weighty, backlog)
      ensures subs == if sub.closed && !old(sub.closed) then old(subs) - {sub} else old(subs)
      ensures droppedSlowSinks == old(droppedSlowSinks) + if sub.closed && !old(sub.closed) then 1 else 0
      ensures coalescedBlobs - old(coalescedBlobs) == sub.replacedBlobs - old(sub.replacedBlobs)
    {
      if !sub.closed {
        var replaced, overrun := sub.Take(frame, key, weighty, backlog);
        if replaced && weighty {
          coalescedBlobs := coalescedBlobs + 1;
        }
        if overrun {
          droppedSlowSinks := droppedSlowSinks + 1;
          subs := subs - {sub};
        }
      }
    }

    /** One turn of the loop over the attached browsers. */
    method Send(sub: Subscription, frame: Frame, coalesce: Option<Key>,
                invalidate: Option<(string, Option<string>)>, weighty: bool)
      requires sub.Valid() && !sub.closed
      requires Routed(frame, coalesce, invalidate, weighty)
      modifies this`subs, this`droppedSlowSinks, this`coalescedBlobs, sub, sub.repr
      ensures sub.Valid() && fresh(sub.repr - old(sub.repr))
      ensures sub.State() == Receive(old(sub.State()), frame, backlog)
      ensures subs == if sub.closed then old(subs) - {sub} else old(subs)
      ensures droppedSlowSinks == old(droppedSlowSinks) + if sub.closed then 1 else 0
      ensures coalescedBlobs - old(coalescedBlobs) == sub.replacedBlobs - old(sub.replacedBlobs)
    {
      ghost var before := sub.State();
      if invalidate.Some? {
        sub.Invalidate(invalidate.value.0, invalidate.value.1);
      }
      assert sub.State() == Shielded(before, frame);
      Deliver(sub, frame, coalesce, weighty);
      TookIsReceive(before, sub.State(), frame, backlog);
    }

    method SendTo(sub: Subscription, ghost i: nat, frame: Frame, coalesce: Option<Key>,
                  invalidate: Option<(string, Option<string>)>, weighty: bool)
      requires Separate(attached, slots) && i < |attached| && attached[i] == sub && !sub.closed
      requires Routed(frame, coalesce, invalidate, weighty)
      modifies this`subs, this`droppedSlowSinks, this`coalescedBlobs, this`slots, sub, slots
      ensures Separate(attached, slots) && fresh(slots - old(slots))
      ensures StatesOf(attached) == old(StatesOf(attached))[i := Receive(old(sub.State()), frame, backlog)]
      ensures subs == if sub.closed then old(subs) - {sub} else old(subs)
      ensures droppedSlowSinks == old(droppedSlowSinks) + if sub.closed then 1 else 0
      ensures coalescedBlobs - old(coalescedBlobs) == sub.replacedBlobs - old(sub.replacedBlobs)
      ensures !old(sub.droppedForBacklog)
    {
      assert OwnsAt(attached, slots, i) && ValidAt(attached, i);
      hide Receive, Routed, Linked, Holds, Separate;
      Send(sub, frame, coalesce, invalidate, weighty);
      OneMoved(i);
      slots := slots + sub.repr;
    }

    /** The counters and the set of open browsers, in step with the browsers' states. */
    ghost predicate Booked(states: seq<Sub>, coalesced: int, dropped: int)
      reads this, attached
    {
      && subs == Open(attached)
      && coalescedBlobs - coalesced == ReplacedTotal(StatesOf(attached)) - ReplacedTotal(states)
      && droppedSlowSinks - dropped == DroppedTotal(StatesOf(attached)) - DroppedTotal(states)
    }

    method SendBooked(sub: Subscription, ghost i: nat, frame: Frame, coalesce: Option<Key>,
                      invalidate: Option<(string, Option<string>)>, weighty: bool,
                      ghost before: seq<Sub>, ghost coalesced: int, ghost dropped: int)
      requires Separate(attached, slots) && i < |attached| && attached[i] == sub && !sub.closed
      requires Routed(frame, coalesce, invalidate, weighty) && Booked(before, coalesced, dropped)
      modifies this`subs, this`droppedSlowSinks, this`coalescedBlobs, this`slots, sub, slots
      ensures Separate(attached, slots) && fresh(slots - old(slots)) && Booked(before, coalesced, dropped)
      ensures StatesOf(attached) == old(StatesOf(attached))[i := Receive(old(sub.State()), frame, backlog)]
    {
      hide Routed, Offer, Open, Separate;
      ghost var states := StatesOf(attached);
      SendTo(sub, i, frame, coalesce, invalidate, weighty);
      OneOpen(i);
      TotalsUpdate(states, i, StatesOf(attached)[i]);
    }

    /** Every open browser takes the frame, in whatever order they are walked (src/indikit/web/bridge.py:698-736). */
    method Broadcast(frame: Frame, coalesce: Option<Key>, invalidate: Option<(string, Option<string>)>,
                     weighty: bool)
      requires Separate(attached, slots) && subs == Open(attached)
      requires Routed(frame, coalesce, invalidate, weighty)
      modifies this`subs, this`droppedSlowSinks, this`coalescedBlobs, this`slots, attached, slots
      ensures Separate(attached, slots) && fresh(slots - old(slots))
      ensures StatesOf(attached) == ReceiveAll(old(StatesOf(attached)), frame, backlog)
      ensures Booked(old(StatesOf(attached)), old(coalescedBlobs), old(droppedSlowSinks))
    {
      ghost var before, coalesced, dropped := StatesOf(attached), coalescedBlobs, droppedSlowSinks;
      var rest := subs;
      NoneServed(attached, before, rest, frame, backlog);
      while rest != {}
        invariant Separate(attached, slots) && fresh(slots - old(slots))
        invariant Booked(before, coalesced, dropped)
        invariant Served(attached, StatesOf(attached), before, rest, frame, backlog)
        decreases rest
      {
        var sub :| sub in rest;
        ghost var i := ServedPosition(attached, StatesOf(attached), before, rest, frame, backlog, sub);
        ghost var states := StatesOf(attached);
        SendBooked(sub, i, frame, coalesce, invalidate, weighty, before, coalesced, dropped);
        forall a, b ensures ApartOnly(attached, a, b) {
          assert ApartAt(attached, a, b);
        }
        OneServed(attached, states, before, rest, frame, backlog, i);
        rest := rest - {sub};
      }
      AllServed(attached, StatesOf(attached), before, frame, backlog);
    }

    // ---------------------------------------------------------------------- //
    // The steps                                                               //
    // ---------------------------------------------------------------------- //

    ghost predicate SubsShape()
      reads this`subs, this`attached, this`slots, attached, slots
    {
      Separate(attached, slots) && subs == Open(attached)
    }

    /** A broadcast moves the browsers and the two counters, by the broadcast step. */
    twostate predicate Moved(frame: Frame)
      reads this, attached
    {
      && attached == old(attached)
      && StatesOf(attached) == ReceiveAll(old(StatesOf(attached)), frame, backlog)
      && coalescedBlobs == old(coalescedBlobs) + SkipCount(old(StatesOf(attached)), frame)
      && droppedSlowSinks == old(droppedSlowSinks) + OverrunCount(old(StatesOf(attached)), frame, backlog)
    }

    lemma LiveUndropped()
      requires Separate(attached, slots)
      ensures forall i :: 0 <= i < |attached| && StatesOf(attached)[i].live
                          ==> !StatesOf(attached)[i].droppedForBacklog
    {
      forall i | 0 <= i < |attached| && StatesOf(attached)[i].live
        ensures !StatesOf(attached)[i].droppedForBacklog
      {
        assert OwnsAt(attached, slots, i) && ValidAt(attached, i);
      }
    }

    method Relay(frame: Frame, coalesce: Option<Key>, invalidate: Option<(string, Option<string>)>, weighty: bool)
      requires SubsShape() && Routed(frame, coalesce, invalidate, weighty)
      modifies this`subs, this`droppedSlowSinks, this`coalescedBlobs, this`slots, attached, slots
      ensures SubsShape() && fresh(slots - old(slots)) && Moved(frame)
    {
      LiveUndropped();
      ReceiveAllTotals(StatesOf(attached), frame, backlog);
      Broadcast(frame, coalesce, invalidate, weighty);
    }

    /** Record a log message and relay it (src/indikit/web/bridge.py:676-686). */
    method OnMessage(msg: IndiMessage)
      requires SubsShape() && msg.Message? && messages == Last(log, history)
      modifies this`messages, this`log
      modifies this`subs, this`droppedSlowSinks, this`coalescedBlobs, this`slots, attached, slots
      ensures SubsShape() && fresh(slots - old(slots)) && Moved(Indi(msg))
      ensures log == old(log) + [Indi(msg)] && messages == Last(log, history)
    {
      var frame := Indi(msg);
      LastSnoc(log, frame, history);
      messages := Last(messages + [frame], history);
      log := log + [frame];
      Relay(frame, None, None, false);
    }

    /** A store's event goes out as the message it renders as (src/indikit/web/bridge.py:636-674). */
    method OnEvent(event: PropertyEvent<LiveVector>)
      requires SubsShape() && (event.what != Deleted ==> event.vector.Some? && event.name.Some?)
      requires event.what != Deleted ==>
                 event.device == event.vector.value.device && event.name.value == event.vector.value.name
      modifies this`subs, this`droppedSlowSinks, this`coalescedBlobs, this`slots, attached, slots
      ensures SubsShape() && fresh(slots - old(slots)) && Moved(old(FrameOf(event)))
    {
      match event.what {
        case Updated =>
          var vector := event.vector.value.Value();
          Relay(Indi(SetVector(vector, true)), Some((event.device, event.name.value)), None,
                vector.kind == BlobKind);
        case Defined =>
          Relay(Indi(DefVector(event.vector.value.Value())), None, Some((event.device, event.name)), false);
        case Deleted =>
          Relay(Indi(DelProperty(event.device, event.name, event.timestamp, event.message)), None,
                Some((event.device, event.name)), false);
      }
    }

    /** Announce an upstream connection transition (src/indikit/web/bridge.py:688-696). */
    method OnConnection(up: bool)
      requires SubsShape()
      modifies this`subs, this`droppedSlowSinks, this`coalescedBlobs, this`slots, attached, slots
      ensures SubsShape() && fresh(slots - old(slots)) && Moved(ConnectionFrame(up))
    {
      Relay(ConnectionFrame(up), None, None, false);
    }

    /** A control frame is queued under no key. */
    method Control(sub: Subscription, frame: Frame)
      requires sub.Valid() && !frame.Indi?
      modifies this`subs, this`droppedSlowSinks, this`coalescedBlobs, sub, sub.repr
      ensures sub.Valid() && fresh(sub.repr - old(sub.repr))
      ensures sub.State() == Receive(old(sub.State()), frame, backlog) && (old(sub.closed) ==> sub.closed)
      ensures subs == if sub.closed && !old(sub.closed) then old(subs) - {sub} else old(subs)
      ensures coalescedBlobs == old(coalescedBlobs)
      ensures droppedSlowSinks == old(droppedSlowSinks) + if Overruns(old(sub.State()), frame, backlog) then 1 else 0
    {
      hide Linked, Holds, Offer;
      ghost var before := sub.State();
      Deliver(sub, frame, None, false);
      if before.live {
        TookIsReceive(before, sub.State(), frame, backlog);
      }
    }

    method ControlTo(sub: Subscription, ghost i: nat, frame: Frame)
      requires Separate(attached, slots) && i < |attached| && attached[i] == sub && !frame.Indi?
      modifies this`subs, this`droppedSlowSinks, this`coalescedBlobs, this`slots, sub, slots
      ensures Separate(attached, slots) && fresh(slots - old(slots))
      ensures StatesOf(attached) == old(StatesOf(attached))[i := sub.State()]
      ensures sub.State() == Receive(old(sub.State()), frame, backlog) && (old(sub.closed) ==> sub.closed)
      ensures subs == if sub.closed && !old(sub.closed) then old(subs) - {sub} else old(subs)
      ensures coalescedBlobs == old(coalescedBlobs)
      ensures droppedSlowSinks == old(droppedSlowSinks) + if Overruns(old(sub.State()), frame, backlog) then 1 else 0
    {
      assert OwnsAt(attached, slots, i) && ValidAt(attached, i);
      hide Linked, Holds, Separate, Receive, Overruns;
      Control(sub, frame);
      OneMoved(i);
      slots := slots + sub.repr;
    }

    /** Queue a control frame for one browser alone (src/indikit/web/bridge.py:174-182). */
    method SendControl(sub: Subscription, ghost i: nat, frame: Frame)
      requires SubsShape() && i < |attached| && attached[i] == sub && !frame.Indi?
      modifies this`subs, this`droppedSlowSinks, this`coalescedBlobs, this`slots, sub, slots
      ensures SubsShape() && fresh(slots - old(slots))
      ensures StatesOf(attached) == old(StatesOf(attached))[i := Receive(old(sub.State()), frame, backlog)]
      ensures coalescedBlobs == old(coalescedBlobs)
      ensures droppedSlowSinks == old(droppedSlowSinks) + if Overruns(old(sub.State()), frame, backlog) then 1 else 0
    {
      hide Separate, Receive, Overruns, Open;
      ControlTo(sub, i, frame);
      OneOpen(i);
    }

    /** Forget a subscription whose browser went away. Idempotent. */
    method Detach(sub: Subscription, ghost i: nat)
      requires SubsShape() && i < |attached| && attached[i] == sub
      modifies this`subs, this`slots, sub`closed, sub`droppedForBacklog
      ensures SubsShape() && slots == old(slots)
      ensures StatesOf(attached) == old(StatesOf(attached))[i := old(sub.State()).(live := false)]
    {
      assert OwnsAt(attached, slots, i) && ValidAt(attached, i);
      hide Linked, Holds, Separate;
      subs := subs - {sub};
      sub.Close(false);
      OneMoved(i);
      assert slots + sub.repr == slots;
    }

    /** One browser's pump handing its next frame to the socket. */
    method Pump(sub: Subscription, ghost i: nat, ghost heap: map<LiveVector, Vector>) returns (frame: Frame)
      requires SubsShape() && i < |attached| && attached[i] == sub && HasPending(sub.State())
      requires forall ref :: ref in sub.seedVectors ==> ref in heap && heap[ref] == ref.Value()
      modifies this`slots, sub`preamble, sub`seedVectors, sub`seedFrames, sub`opening, sub`popped
      modifies sub`queue, sub`coalescible, sub`contents
      ensures SubsShape() && slots == old(slots) && frame == NextFrame(heap, old(sub.State()))
      ensures StatesOf(attached) == old(StatesOf(attached))[i := Pumped(heap, old(sub.State()))]
    {
      assert OwnsAt(attached, slots, i) && ValidAt(attached, i);
      hide Linked, Holds, Separate, Pumped, NextFrame;
      frame := sub.PumpStep(heap);
      OneMoved(i);
      assert slots + sub.repr == slots;
    }

    /** Register a browser, seeded with a reference to every cached vector
        (src/indikit/web/bridge.py:385-431). */
    method Attach(connected: bool) returns (sub: Subscription)
      requires SubsShape() && store.Valid() && messages == Last(log, history)
      modifies this`subs, this`attached
      ensures SubsShape() && fresh(sub)
      ensures attached == old(attached) + [sub] && subs == old(subs) + {sub}
      ensures Lists(sub.seedVectors, store.byDevice)
      ensures sub.State() == Attached(sub.seedVectors, log, history, connected)
    {
      assert Keyed(store.byDevice) by {
        forall d, n | Has(store.byDevice, d, n)
          ensures store.byDevice[d][n].device == d && store.byDevice[d][n].name == n
        {
          assert RowFiled(store.byDevice[d], d);
        }
      }
      hide Keyed, Lists, RowFiled, Attached;
      var seeds := ListVectors(store.byDevice);
      sub := new Subscription([Hello], seeds, messages + [ConnectionFrame(connected)], |log|);
      subs := subs + {sub};
      attached := attached + [sub];
      forall i, j ensures ApartAt(attached, i, j) {
        assert old(ApartAt(attached, i, j));
      }
      forall i ensures OwnsAt(attached, slots, i) && ValidAt(attached, i) {
        assert old(OwnsAt(attached, slots, i)) && old(OwnsAt(attached, slots, i) ==> ValidAt(attached, i));
      }
    }
  }

  /** Every object is filed under its own device and name. */
  ghost predicate Keyed(cache: Nested<LiveVector>) {
    forall d, n :: Has(cache, d, n) ==> cache[d][n].device == d && cache[d][n].name == n
  }

  ghost predicate FiledIn(cache: Nested<LiveVector>, ref: LiveVector) {
    Has(cache, ref.device, ref.name) && cache[ref.device][ref.name] == ref
  }

  ghost predicate Distinct(seeds: seq<LiveVector>) {
    forall i, j :: 0 <= i < j < |seeds| ==> seeds[i] != seeds[j]
  }

  /** Every filed object, each of them once. */
  ghost predicate Lists(seeds: seq<LiveVector>, cache: Nested<LiveVector>) {
    && Distinct(seeds)
    && (forall i :: 0 <= i < |seeds| ==> FiledIn(cache, seeds[i]))
    && (forall d, n :: Has(cache, d, n) ==> cache[d][n] in seeds)
  }

  /** Walk the cache, device by device and property by property. */
  method ListVectors(cache: Nested<LiveVector>) returns (seeds: seq<LiveVector>)
    requires Keyed(cache)
    ensures Lists(seeds, cache)
  {
    seeds := [];
    var devices := cache.Keys;
    while devices != {}
      invariant devices <= cache.Keys && Distinct(seeds)
      invariant forall i :: 0 <= i < |seeds| ==> FiledIn(cache, seeds[i]) && seeds[i].device !in devices
      invariant forall d, n :: Has(cache, d, n) && d !in devices ==> cache[d][n] in seeds
      decreases devices
    {
      var d :| d in devices;
      devices := devices - {d};
      var names := cache[d].Keys;
      while names != {}
        invariant names <= cache[d].Keys && Distinct(seeds)
        invariant forall i :: 0 <= i < |seeds| ==>
                    && FiledIn(cache, seeds[i]) && seeds[i].device !in devices
                    && (seeds[i].device == d ==> seeds[i].name !in names)
        invariant forall d', n :: Has(cache, d', n) && d' !in devices && d' != d ==> cache[d'][n] in seeds
        invariant forall n :: n in cache[d] && n !in names ==> cache[d][n] in seeds
        decreases names
      {
        var n :| n in names;
        assert Has(cache, d, n);
        names := names - {n};
        seeds := seeds + [cache[d][n]];
      }
    }
  }

  /** A listed cache is what the attaching step asks of its seeds. */
  lemma ListedIsEnabled(w: World, seeds: seq<LiveVector>)
    requires Closed(w) && Lists(seeds, w.cache)
    ensures Enabled(w, Attaching(seeds))
  {
    forall i | 0 <= i < |seeds| ensures Cached(w, seeds[i]) {
      assert FiledIn(w.cache, seeds[i]);
    }
  }

  /** The frame an event is broadcast as is the one its message is relayed as. */
  lemma EventIsRelayed(w: World, msg: IndiMessage, event: PropertyEvent<LiveVector>)
    requires Closed(w) && Resolved(Some(event)) == EventOf(Upstream(w), msg)
    requires event.what != Deleted ==> event.vector.Some?
    ensures Relayed(w, msg) == Some(FrameOf(event))
  {
  }

  /** The frame an event is relayed as, its vector read as it stands. */
  ghost function FrameOf(event: PropertyEvent<LiveVector>): Frame
    requires event.what != Deleted ==> event.vector.Some?
    reads if event.vector.Some? then {event.vector.value} else {}
  {
    match event.what
    case Updated => Indi(SetVector(event.vector.value.Value(), true))
    case Defined => Indi(DefVector(event.vector.value.Value()))
    case Deleted => Indi(DelProperty(event.device, event.name, event.timestamp, event.message))
  }

  lemma LastSnoc<T>(log: seq<T>, x: T, history: nat)
    ensures Last(Last(log, history) + [x], history) == Last(log + [x], history)
  {
  }

  // The loop over the browsers, told of their states alone.

  /** A browser still to be served is as it was and open; the others have received the frame. */
  ghost predicate ServedAt(attached: seq<Subscription>, states: seq<Sub>, before: seq<Sub>,
                           rest: set<Subscription>, frame: Frame, backlog: nat, i: int)
  {
    0 <= i < |attached| && i < |states| && i < |before| ==>
      if attached[i] in rest then states[i] == before[i] && before[i].live
      else states[i] == Receive(before[i], frame, backlog)
  }

  ghost predicate Served(attached: seq<Subscription>, states: seq<Sub>, before: seq<Sub>,
                         rest: set<Subscription>, frame: Frame, backlog: nat)
  {
    && |states| == |before| == |attached|
    && (forall s :: s in rest ==> s in attached)
    && (forall i :: ServedAt(attached, states, before, rest, frame, backlog, i))
  }

  lemma NoneServed(attached: seq<Subscription>, before: seq<Sub>, rest: set<Subscription>,
                   frame: Frame, backlog: nat)
    requires before == StatesOf(attached) && rest == Open(attached)
    ensures Served(attached, before, before, rest, frame, backlog)
  {
  }

  lemma ServedPosition(attached: seq<Subscription>, states: seq<Sub>, before: seq<Sub>,
                       rest: set<Subscription>, frame: Frame, backlog: nat, sub: Subscription) returns (i: nat)
    requires Served(attached, states, before, rest, frame, backlog) && sub in rest
    ensures i < |attached| && attached[i] == sub && states[i].live && states[i] == before[i]
  {
    i :| 0 <= i < |attached| && attached[i] == sub;
    assert ServedAt(attached, states, before, rest, frame, backlog, i);
  }

  lemma OneServed(attached: seq<Subscription>, states: seq<Sub>, before: seq<Sub>,
                  rest: set<Subscription>, frame: Frame, backlog: nat, i: nat)
    requires Served(attached, states, before, rest, frame, backlog)
    requires i < |attached| && attached[i] in rest
    requires forall a, b :: ApartOnly(attached, a, b)
    ensures Served(attached, states[i := Receive(states[i], frame, backlog)], before,
                   rest - {attached[i]}, frame, backlog)
  {
    var states' := states[i := Receive(states[i], frame, backlog)];
    forall j ensures ServedAt(attached, states', before, rest - {attached[i]}, frame, backlog, j) {
      assert ServedAt(attached, states, before, rest, frame, backlog, j);
      assert ApartOnly(attached, i, j) && ApartOnly(attached, j, i);
    }
  }

  ghost predicate ApartOnly(attached: seq<Subscription>, i: int, j: int) {
    0 <= i < j < |attached| ==> attached[i] != attached[j]
  }

  lemma AllServed(attached: seq<Subscription>, states: seq<Sub>, before: seq<Sub>, frame: Frame, backlog: nat)
    requires Served(attached, states, before, {}, frame, backlog)
    ensures states == ReceiveAll(before, frame, backlog)
  {
    forall i | 0 <= i < |attached| ensures states[i] == Receive(before[i], frame, backlog) {
      assert ServedAt(attached, states, before, {}, frame, backlog, i);
    }
  }
}
