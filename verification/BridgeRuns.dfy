/** The bridge's objects and the step system are one: whatever is done to a bridge, its
    store and its subscriptions (src/indikit/web/bridge.py), they are in the state a run of
    `Fanout` reaches, so what holds in every run holds of them. */
module BridgeRuns {
  import opened Wire
  import opened Merge
  import opened Store
  import opened Coalescing
  import opened Fanout
  import opened FanoutSafety
  import opened Bridge

  /** What each of the objects holds now. */
  ghost function HeapOf(known: set<LiveVector>): (heap: map<LiveVector, Vector>)
    reads known
    ensures heap.Keys == known && forall o :: o in known ==> heap[o] == o.Value()
  {
    map o | o in known :: o.Value()
  }

  /** A cache read through its objects is the cache the store holds. */
  lemma ReadIsValues(known: set<LiveVector>, cache: Nested<LiveVector>)
    requires Known(HeapOf(known), cache)
    ensures Read(HeapOf(known), cache) == Values(cache)
  {
    hide LiveVector.Value;
    forall d | d in cache ensures Row(HeapOf(known), cache[d]) == RowValues(cache[d]) {
      assert RowKnown(HeapOf(known), cache[d]);
    }
  }

  /** One more possible step makes a longer run. */
  lemma OneMore(history: nat, backlog: nat, actions: seq<Action>, a: Action)
    requires Possible(Initial(history, backlog), actions) && Enabled(After(Initial(history, backlog), actions), a)
    ensures Possible(Initial(history, backlog), actions + [a])
    ensures After(Initial(history, backlog), actions + [a]) == Next(After(Initial(history, backlog), actions), a)
    ensures Closed(After(Initial(history, backlog), actions + [a]))
  {
    hide Enabled, Next;
    assert (actions + [a])[..|actions|] == actions;
    ReachedClosed(history, backlog, actions + [a]);
  }

  lemma ReachedClosed(history: nat, backlog: nat, actions: seq<Action>)
    requires Possible(Initial(history, backlog), actions)
    ensures Closed(After(Initial(history, backlog), actions))
  {
    hide Next, SubInv, WellFiled, Known, Possible, After;
    RunKeepsInv(history, backlog, actions);
  }

  /** A store stays valid while neither it nor an object it files is written to. */
  twostate lemma StoreUntouched(store: PyStore)
    requires old(store.Valid()) && unchanged(store) && forall f :: f in old(Files(store.byDevice)) ==> unchanged(f)
    ensures store.Valid()
  {
    forall d | d in store.byDevice ensures RowFiled(store.byDevice[d], d) {
      assert old(RowFiled(store.byDevice[d], d));
      forall n | n in store.byDevice[d]
        ensures var f := store.byDevice[d][n]; f.device == d && f.name == n && UniqueNames(f.elements)
      {
        assert store.byDevice[d][n] in old(Files(store.byDevice));
      }
    }
  }

  /** The browsers stay as they are while none of their objects is written to. */
  twostate lemma BrowsersUntouched(bridge: Bridge)
    requires old(bridge.SubsShape()) && unchanged(bridge) && unchanged(bridge.attached) && unchanged(bridge.slots)
    ensures bridge.SubsShape() && StatesOf(bridge.attached) == old(StatesOf(bridge.attached))
  {
  }

  /** The object a `set` writes to. */
  ghost function Written(w: World, msg: IndiMessage): set<LiveVector> {
    if msg.SetVector? && Has(w.cache, msg.vector.device, msg.vector.name)
    then {w.cache[msg.vector.device][msg.vector.name]} else {}
  }

  /** A `set` leaves its object at the merged value. */
  lemma WrittenValue(w: World, msg: IndiMessage, event: Option<PropertyEvent<LiveVector>>, after: Nested<LiveVector>)
    requires Closed(w) && Refers(event, msg, w.cache, after) && Resolved(event) == EventOf(Upstream(w), msg)
    requires msg.SetVector? && Has(w.cache, msg.vector.device, msg.vector.name)
    ensures var o := w.cache[msg.vector.device][msg.vector.name];
            o in w.heap && o.Value() == MergeVector(w.heap[o], msg.vector, msg.statePresent)
  {
    hide MergeVector, LiveVector.Value;
    assert RowKnown(w.heap, w.cache[msg.vector.device]);
  }

  /** What the objects hold once a message is folded in is the cache side of its step. */
  lemma StoredIs(w: World, msg: IndiMessage, ref: LiveVector, event: Option<PropertyEvent<LiveVector>>,
                 known: set<LiveVector>, after: Nested<LiveVector>)
    requires Closed(w) && Refers(event, msg, w.cache, after) && Resolved(event) == EventOf(Upstream(w), msg)
    requires msg.DefVector? ==> event.Some? && event.value.vector == Some(ref)
    requires known == w.heap.Keys + if msg.DefVector? then {ref} else {}
    requires forall o :: o in w.heap && o !in Written(w, msg) ==> o.Value() == w.heap[o]
    requires msg.DefVector? ==> ref !in w.heap
    ensures w.(heap := HeapOf(known), cache := after) == Stored(w, msg, ref)
  {
    hide MergeVector, LiveVector.Value, Put, Drop;
    if msg.SetVector? && Has(w.cache, msg.vector.device, msg.vector.name) {
      WrittenValue(w, msg, event, after);
    }
    assert HeapOf(known) == Stored(w, msg, ref).heap;
  }

  /** The store folding one message in, over the objects `known`: the cache side of the
      step. `spare` stands for the object of a message that defines none. */
  method FoldIn(store: PyStore, msg: IndiMessage, ghost w: World, ghost known: set<LiveVector>, ghost spare: LiveVector)
    returns (event: Option<PropertyEvent<LiveVector>>, ghost ref: LiveVector, ghost more: set<LiveVector>)
    requires store.Valid() && w.cache == store.byDevice && w.heap == HeapOf(known)
    requires Closed(w) && Admissible(Upstream(w), msg)
    modifies store, store.Target(msg)
    ensures store.Valid() && Resolved(event) == EventOf(Upstream(w), msg)
    ensures w.(heap := HeapOf(more), cache := store.byDevice) == Stored(w, msg, ref)
    ensures msg.DefVector? ==> ref !in known
  {
    hide Filed, Admissible, EventOf, Read, Values, Known, Resolved, LiveVector.Value, Stored;
    assert Known(HeapOf(known), store.byDevice);
    ReadIsValues(known, store.byDevice);
    assert store.Target(msg) == Written(w, msg);
    event := store.Apply(msg);
    ref := if msg.DefVector? then event.value.vector.value else spare;
    more := if msg.DefVector? then known + {ref} else known;
    StoredIs(w, msg, ref, event, more, store.byDevice);
  }

  /** An event's own names are those of the object it carries, and its frame is no note. */
  lemma EventFits(w: World, msg: IndiMessage, event: PropertyEvent<LiveVector>)
    requires Closed(w) && Resolved(Some(event)) == EventOf(Upstream(w), msg)
    ensures event.what != Deleted ==>
              && event.vector.Some? && event.name.Some?
              && event.device == event.vector.value.device && event.name.value == event.vector.value.name
    ensures !IsNote(FrameOf(event))
  {
    hide MergeVector, Closed;
  }

  lemma BroadcastConnected(w: World, up: bool)
    ensures Broadcast(w.(connected := up), ConnectionFrame(up)) == Broadcast(w, ConnectionFrame(up)).(connected := up)
  {
  }

  lemma HeardEvent(w: World, msg: IndiMessage, ref: LiveVector, f: Frame)
    requires Closed(w) && Relayed(w, msg) == Some(f) && !IsNote(f)
    ensures Heard(w, msg, ref) == Broadcast(Stored(w, msg, ref), f)
  {
    hide Relayed, Stored, Broadcast, Closed;
  }

  lemma HeardNote(w: World, msg: IndiMessage, ref: LiveVector)
    requires Closed(w) && msg.Message?
    ensures Heard(w, msg, ref) == Broadcast(Stored(w, msg, ref).(log := w.log + [Indi(msg)]), Indi(msg))
    ensures Stored(w, msg, ref) == w
  {
    hide Broadcast, Closed;
  }

  lemma HeardNothing(w: World, msg: IndiMessage, ref: LiveVector)
    requires Closed(w) && EventOf(Upstream(w), msg) == None && !msg.Message?
    ensures Heard(w, msg, ref) == Stored(w, msg, ref)
  {
    hide Stored, Broadcast, Closed, EventOf;
  }

  /** The bridge with the client it relays: `known` is every vector object ever filed. */
  class Hub {
    const bridge: Bridge
    var connected: bool
    ghost var known: set<LiveVector>
    ghost var actions: seq<Action>

    ghost function View(): World
      reads this, known, bridge, bridge.store, bridge.attached
    {
      World(HeapOf(known), bridge.store.byDevice, StatesOf(bridge.attached), bridge.log, connected,
            bridge.coalescedBlobs, bridge.droppedSlowSinks, bridge.history, bridge.backlog)
    }

    ghost predicate Shape()
      reads bridge, bridge.attached, bridge.slots, bridge.store, Files(bridge.store.byDevice)
    {
      bridge.SubsShape() && bridge.messages == Last(bridge.log, bridge.history) && bridge.store.Valid()
    }

    /** The state is one a run reaches: the run of `actions`. */
    ghost predicate Reached()
      reads this, known, bridge, bridge.store, bridge.attached
    {
      && Possible(Initial(bridge.history, bridge.backlog), actions)
      && View() == After(Initial(bridge.history, bridge.backlog), actions)
      && Closed(View())
    }

    constructor (history: nat, backlog: nat)
      ensures Shape() && Reached() && actions == [] && bridge.history == history && bridge.backlog == backlog
      ensures fresh(bridge) && fresh(bridge.store)
    {
      var store := new PyStore();
      bridge := new Bridge(store, history, backlog);
      connected, known, actions := false, {}, [];
      new;
      assert HeapOf(known) == map[] && StatesOf(bridge.attached) == [];
    }

    /** What is done to the browsers alone leaves every vector object as it was. */
    twostate lemma StandsStill()
      requires old(Shape()) && bridge.SubsShape() && bridge.messages == Last(bridge.log, bridge.history)
      requires known == old(known)
      requires unchanged(bridge.store) && unchanged(old(Files(bridge.store.byDevice))) && unchanged(old(known))
      ensures Shape() && HeapOf(known) == old(HeapOf(known))
    {
      hide HeapOf, Separate, Filed, Last, Open;
      StoreUntouched(bridge.store);
    }

    /** A broadcast moves the state as the broadcast of the step does. */
    twostate lemma MovedView(f: Frame)
      requires old(Shape()) && bridge.SubsShape() && bridge.messages == Last(bridge.log, bridge.history)
      requires bridge.Moved(f) && connected == old(connected) && known == old(known)
      requires unchanged(bridge.store) && unchanged(old(Files(bridge.store.byDevice))) && unchanged(old(known))
      ensures Shape() && View() == Broadcast(old(View()).(log := bridge.log), f)
    {
      hide ReceiveAll, SkipCount, OverrunCount, StatesOf, HeapOf, Separate, Filed, Last, Open;
      StandsStill();
    }

    /** What was done was a step of the run. */
    ghost method Record(w: World, a: Action)
      requires Shape() && Possible(Initial(bridge.history, bridge.backlog), actions)
      requires w == After(Initial(bridge.history, bridge.backlog), actions) && Enabled(w, a) && View() == Next(w, a)
      modifies this`actions
      ensures Shape() && Reached() && actions == old(actions) + [a] && View() == old(View())
    {
      hide Bridge.SubsShape, StatesOf, Filed, HeapOf, Possible, After, Next, Enabled, Closed, Last;
      OneMore(bridge.history, bridge.backlog, actions, a);
      actions := actions + [a];
      StoreUntouched(bridge.store);
      assert HeapOf(known) == old(HeapOf(known));
    }

    method Announce(up: bool)
      requires Shape()
      modifies bridge`subs, bridge`droppedSlowSinks, bridge`coalescedBlobs, bridge`slots, bridge.attached, bridge.slots
      ensures Shape() && View() == Broadcast(old(View()), ConnectionFrame(up))
      ensures fresh(bridge.slots - old(bridge.slots)) && bridge.attached == old(bridge.attached)
    {
      hide Bridge.SubsShape, Bridge.Moved, Separate, StatesOf, Filed, HeapOf, Open, Last, ReceiveAll, SkipCount,
           OverrunCount, Broadcast;
      bridge.OnConnection(up);
      MovedView(ConnectionFrame(up));
    }

    /** The client's connection going up or down. */
    method Connect(up: bool)
      requires Shape() && Reached()
      modifies this`connected, this`actions
      modifies bridge`subs, bridge`droppedSlowSinks, bridge`coalescedBlobs, bridge`slots, bridge.attached, bridge.slots
      ensures Shape() && Reached() && actions == old(actions) + [Connecting(up)]
      ensures fresh(bridge.slots - old(bridge.slots)) && bridge.attached == old(bridge.attached)
    {
      hide Bridge.SubsShape, StatesOf, Filed, HeapOf, Possible, After, Closed, Last, Admissible, Cached, HasPending,
           Broadcast;
      ghost var w := View();
      Announce(up);
      SetConnected(up);
      BroadcastConnected(w, up);
      Record(w, Connecting(up));
    }

    method SetConnected(up: bool)
      requires Shape()
      modifies this`connected
      ensures Shape() && View() == old(View()).(connected := up)
    {
      hide Bridge.SubsShape, StatesOf, Filed, HeapOf, Last;
      connected := up;
      StoreUntouched(bridge.store);
      assert HeapOf(known) == old(HeapOf(known));
    }

    /** A browser attaching. */
    method Attach() returns (sub: Subscription)
      requires Shape() && Reached()
      modifies bridge`subs, bridge`attached, this`actions
      ensures Shape() && Reached() && fresh(sub) && bridge.attached == old(bridge.attached) + [sub]
      ensures actions == old(actions) + [Attaching(sub.seedVectors)]
    {
      hide Separate, Filed, HeapOf, Possible, After, Closed, Last, Admissible, Cached, HasPending, Attached, Lists;
      ghost var w := View();
      sub := bridge.Attach(connected);
      StandsStill();
      ListedIsEnabled(w, sub.seedVectors);
      Record(w, Attaching(sub.seedVectors));
    }

    method Drain(sub: Subscription, ghost i: nat) returns (frame: Frame)
      requires Shape() && i < |bridge.attached| && bridge.attached[i] == sub && HasPending(sub.State())
      requires forall ref :: ref in sub.seedVectors ==> ref in known
      modifies bridge`slots, sub`preamble, sub`seedVectors, sub`seedFrames, sub`opening, sub`popped
      modifies sub`queue, sub`coalescible, sub`contents
      ensures Shape() && bridge.attached == old(bridge.attached)
      ensures View() == old(View().(subs := View().subs[i := Pumped(HeapOf(known), sub.State())]))
    {
      hide Bridge.SubsShape, Filed, HeapOf, Last, HasPending, Pumped;
      frame := bridge.Pump(sub, i, HeapOf(known));
      StandsStill();
    }

    /** A browser's pump sending one frame. */
    method Pump(sub: Subscription, ghost i: nat) returns (frame: Frame)
      requires Shape() && Reached() && i < |bridge.attached| && bridge.attached[i] == sub
      requires !sub.closed && HasPending(sub.State())
      modifies this`actions, bridge`slots, sub`preamble, sub`seedVectors, sub`seedFrames, sub`opening, sub`popped
      modifies sub`queue, sub`coalescible, sub`contents
      ensures Shape() && Reached() && actions == old(actions) + [Pumping(i)] && bridge.attached == old(bridge.attached)
    {
      hide Shape, HeapOf, Possible, After, Closed, Last, Admissible, Cached, HasPending, Pumped;
      ghost var w := View();
      SeedsHeld(i);
      frame := Drain(sub, i);
      Record(w, Pumping(i));
    }

    /** The seeds a live browser has still to be sent are known objects. */
    lemma SeedsHeld(i: nat)
      requires Reached() && i < |bridge.attached| && !bridge.attached[i].closed
      ensures forall ref :: ref in bridge.attached[i].seedVectors ==> ref in known
    {
      hide Possible, After, Next, WellFiled, Closed;
      RunKeepsInv(bridge.history, bridge.backlog, actions);
      assert SubInv(View(), View().subs[i]);
    }

    method Tell(sub: Subscription, ghost i: nat, frame: Frame)
      requires Shape() && i < |bridge.attached| && bridge.attached[i] == sub && !frame.Indi?
      modifies bridge`subs, bridge`droppedSlowSinks, bridge`coalescedBlobs, bridge`slots, sub, bridge.slots
      ensures Shape() && fresh(bridge.slots - old(bridge.slots)) && bridge.attached == old(bridge.attached)
      ensures View() == old(View().(subs := View().subs[i := Receive(sub.State(), frame, bridge.backlog)],
                                    droppedSlowSinks := bridge.droppedSlowSinks
                                      + if Overruns(sub.State(), frame, bridge.backlog) then 1 else 0))
    {
      hide Bridge.SubsShape, Filed, HeapOf, Last, Receive, Overruns;
      bridge.SendControl(sub, i, frame);
      StandsStill();
    }

    /** A control frame for one browser alone. */
    method Control(sub: Subscription, ghost i: nat, frame: Frame)
      requires Shape() && Reached() && i < |bridge.attached| && bridge.attached[i] == sub && frame.ErrorFrame?
      modifies this`actions, bridge`subs, bridge`droppedSlowSinks, bridge`coalescedBlobs, bridge`slots, sub, bridge.slots
      ensures Shape() && Reached() && actions == old(actions) + [Controlling(i, frame)]
      ensures fresh(bridge.slots - old(bridge.slots)) && bridge.attached == old(bridge.attached)
    {
      hide Shape, HeapOf, Possible, After, Closed, Last, Admissible, Cached, HasPending, Receive, Overruns;
      ghost var w := View();
      Tell(sub, i, frame);
      Record(w, Controlling(i, frame));
    }

    /** A browser going away. */
    method Leave(sub: Subscription, ghost i: nat)
      requires Shape() && Reached() && i < |bridge.attached| && bridge.attached[i] == sub
      modifies this`actions, bridge`subs, bridge`slots, sub`closed, sub`droppedForBacklog
      ensures Shape() && Reached() && actions == old(actions) + [Leaving(i)] && bridge.attached == old(bridge.attached)
    {
      hide Bridge.SubsShape, Filed, HeapOf, Possible, After, Closed, Last, Admissible, Cached, HasPending;
      ghost var w := View();
      bridge.Detach(sub, i);
      StandsStill();
      Record(w, Leaving(i));
    }

    /** The store folding one message in is the cache side of the step. */
    method Store(msg: IndiMessage, ghost spare: LiveVector)
      returns (event: Option<PropertyEvent<LiveVector>>, ghost ref: LiveVector)
      requires Shape() && Closed(View()) && Admissible(Upstream(View()), msg)
      modifies this`known, bridge.store, bridge.store.Target(msg)
      ensures Shape()
      ensures View() == Stored(old(View()), msg, ref)
      ensures msg.DefVector? ==> ref !in old(View()).heap
      ensures Resolved(event) == EventOf(Upstream(old(View())), msg)
    {
      hide Bridge.SubsShape, StatesOf, Filed, Admissible, EventOf, Read, Last, Closed, Stored, HeapOf, PyStore.Target;
      ghost var more: set<LiveVector>;
      event, ref, more := FoldIn(bridge.store, msg, View(), known, spare);
      label Folded:
      known := more;
      BrowsersUntouched(bridge);
      StoreUntouched@Folded(bridge.store);
    }

    method Emit(event: PropertyEvent<LiveVector>)
      requires Shape() && (event.what != Deleted ==> event.vector.Some? && event.name.Some?)
      requires event.what != Deleted ==>
                 event.device == event.vector.value.device && event.name.value == event.vector.value.name
      modifies bridge`subs, bridge`droppedSlowSinks, bridge`coalescedBlobs, bridge`slots, bridge.attached, bridge.slots
      ensures Shape() && View() == Broadcast(old(View()), old(FrameOf(event)))
      ensures fresh(bridge.slots - old(bridge.slots)) && bridge.attached == old(bridge.attached)
    {
      hide Bridge.SubsShape, Bridge.Moved, Separate, StatesOf, Filed, HeapOf, Open, Last, ReceiveAll, SkipCount,
           OverrunCount, Broadcast, FrameOf;
      ghost var f := FrameOf(event);
      bridge.OnEvent(event);
      MovedView(f);
    }

    /** What the message changed is relayed: the rest of the step. */
    method RelayEvent(event: PropertyEvent<LiveVector>, msg: IndiMessage, ghost w: World, ghost ref: LiveVector)
      requires Shape() && Closed(w) && View() == Stored(w, msg, ref)
      requires Resolved(Some(event)) == EventOf(Upstream(w), msg)
      modifies bridge`subs, bridge`droppedSlowSinks, bridge`coalescedBlobs, bridge`slots, bridge.attached, bridge.slots
      ensures Shape() && View() == Heard(w, msg, ref)
      ensures fresh(bridge.slots - old(bridge.slots)) && bridge.attached == old(bridge.attached)
    {
      hide Shape, View, Closed, Stored, Relayed, Heard, Broadcast, EventOf, Resolved, FrameOf, Upstream;
      EventFits(w, msg, event);
      EventIsRelayed(w, msg, event);
      HeardEvent(w, msg, ref, FrameOf(event));
      Emit(event);
    }

    method RelayNote(msg: IndiMessage, ghost w: World, ghost ref: LiveVector)
      requires Shape() && Closed(w) && View() == Stored(w, msg, ref) && msg.Message?
      modifies bridge`messages, bridge`log
      modifies bridge`subs, bridge`droppedSlowSinks, bridge`coalescedBlobs, bridge`slots, bridge.attached, bridge.slots
      ensures Shape() && View() == Heard(w, msg, ref)
      ensures fresh(bridge.slots - old(bridge.slots)) && bridge.attached == old(bridge.attached)
    {
      hide Separate, StatesOf, Filed, Admissible, Read, Open, Last, Closed, Stored, HeapOf, ReceiveAll, SkipCount,
           OverrunCount, Relayed, MergeVector, Heard, Broadcast, Bridge.Moved, Bridge.SubsShape;
      HeardNote(w, msg, ref);
      bridge.OnMessage(msg);
      MovedView(Indi(msg));
    }

    /** A message from upstream is folded into the store, and what it changed is relayed. */
    method Hear(msg: IndiMessage, ghost spare: LiveVector) returns (ghost ref: LiveVector)
      requires Shape() && Reached() && Admissible(Upstream(View()), msg)
      modifies this`known, this`actions, bridge.store, bridge.store.Target(msg), bridge`messages, bridge`log
      modifies bridge`subs, bridge`droppedSlowSinks, bridge`coalescedBlobs, bridge`slots, bridge.attached, bridge.slots
      ensures Shape() && Reached() && actions == old(actions) + [Receiving(msg, ref)]
      ensures fresh(bridge.slots - old(bridge.slots)) && bridge.attached == old(bridge.attached)
    {
      hide Shape, View, Admissible, Closed, Stored, Heard, Upstream, EventOf, Possible, After, PyStore.Target;
      ghost var w := View();
      var event: Option<PropertyEvent<LiveVector>>;
      event, ref := Store(msg, spare);
      if event.Some? {
        RelayEvent(event.value, msg, w, ref);
      } else if msg.Message? {
        RelayNote(msg, w, ref);
      } else {
        HeardNothing(w, msg, ref);
      }
      Record(w, Receiving(msg, ref));
    }

    /** Whatever was done: the store holds the fold of every message heard, and what an
        open browser was sent, with the frames it is still to be sent, folds to just that. */
    lemma BrowserHolds(i: nat, k: Key)
      requires Shape() && Reached() && i < |bridge.attached| && !bridge.attached[i].closed
      ensures bridge.store.Contents() == AppliedAll(map[], Received(actions))
      ensures var s := bridge.attached[i].State();
              && SeedsKnown(HeapOf(known), s)
              && Lookup(Folded(map[], Sent(s) + Pending(HeapOf(known), s)), k) == Lookup(bridge.store.Contents(), k)
    {
      hide Possible, After, Filed, HeapOf, SeedsKnown, Folded, Pending, Sent, Values, Read;
      EveryBrowserIsItsPendingFramesAway(bridge.history, bridge.backlog, actions, i, k);
      UpstreamIsTheFold(bridge.history, bridge.backlog, actions);
      ReadIsValues(known, bridge.store.byDevice);
    }

    /** Whatever was done: an open browser is greeted first, and the last word it was sent or
        is to be sent on the upstream connection is how the connection stands. */
    lemma BrowserIsTold(i: nat)
      requires Shape() && Reached() && i < |bridge.attached| && !bridge.attached[i].closed
      ensures connected == Up(actions)
      ensures var s := bridge.attached[i].State();
              && SeedsKnown(HeapOf(known), s) && Sent(s) + Pending(HeapOf(known), s) != []
              && (Sent(s) + Pending(HeapOf(known), s))[0] == Hello
              && Status(Sent(s) + Pending(HeapOf(known), s)) == Some(connected)
    {
      hide Possible, After, HeapOf, SeedsKnown, Pending, Sent, Status, Up, Read;
      EveryBrowserIsTold(bridge.history, bridge.backlog, actions, i);
      ConnectedIsUp(bridge.history, bridge.backlog, actions);
    }

    /** Whatever was done: an open browser's queue is within the backlog, a dropped one's is
        one frame past it, and the dictionary of an open one names exactly the properties
        with a slot queued and no `def` or `del` of them behind it. */
    lemma BrowserCoalesces(i: nat)
      requires Shape() && Reached() && i < |bridge.attached|
      ensures var s := bridge.attached[i];
              && |s.queue| == |s.contents|
              && (!s.closed ==> |s.queue| <= bridge.backlog
                                && forall k :: k in s.coalescible <==> IsOpen(s.contents, k))
              && (s.droppedForBacklog ==> s.closed && |s.queue| == bridge.backlog + 1)
    {
      hide Possible, After, HeapOf, IsOpen, Read, Separated, KeyedAt;
      EveryQueueIsBounded(bridge.history, bridge.backlog, actions, i);
      assert View().subs[i] == bridge.attached[i].State();
      assert OwnsAt(bridge.attached, bridge.slots, i) && ValidAt(bridge.attached, i);
    }
  }
}
