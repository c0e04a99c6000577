/** A browser's outbound queue, in which a later `set` may overwrite a queued one
    (src/indikit/web/bridge.py:184-270), as operations on values; and the proof
    that overwriting is invisible: whatever a browser holds, draining the coalesced
    queue leaves it holding what every frame in order would have. */
module Coalescing {
  import opened Wire
  import opened Merge
  import opened Store

  /** One text frame to a browser: an INDI message as JSON, or a control frame. */
  datatype Frame =
    | Indi(msg: IndiMessage)
    | Hello
    | ConnectionFrame(connected: bool)
    | ErrorFrame(code: string, detail: string, tag: Option<string>)

  // ------------------------------------------------------------------------ //
  // What a browser makes of the frames it is sent                             //
  // ------------------------------------------------------------------------ //

  function Folded(c: Cache, frames: seq<Frame>): Cache {
    if frames == [] then c
    else
      var before := Folded(c, frames[..|frames| - 1]);
      var last := frames[|frames| - 1];
      if last.Indi? then Applied(before, last.msg) else before
  }

  function KeyStep(o: Option<Vector>, f: Frame, k: Key): Option<Vector> {
    if f.Indi? then KeyApplied(o, f.msg, k) else o
  }

  /** The fate of one property under a list of frames. */
  function KeyFold(o: Option<Vector>, frames: seq<Frame>, k: Key): Option<Vector> {
    if frames == [] then o
    else KeyStep(KeyFold(o, frames[..|frames| - 1], k), frames[|frames| - 1], k)
  }

  lemma {:induction false} FoldedAt(c: Cache, frames: seq<Frame>, k: Key)
    ensures Lookup(Folded(c, frames), k) == KeyFold(Lookup(c, k), frames, k)
  {
    if frames != [] {
      var init := frames[..|frames| - 1];
      FoldedAt(c, init, k);
      if frames[|frames| - 1].Indi? {
        AppliedAt(Folded(c, init), frames[|frames| - 1].msg, k);
      }
    }
  }

  lemma {:induction false} KeyFoldConcat(o: Option<Vector>, xs: seq<Frame>, ys: seq<Frame>, k: Key)
    ensures KeyFold(o, xs + ys, k) == KeyFold(KeyFold(o, xs, k), ys, k)
  {
    if ys == [] {
      assert xs + ys == xs;
    } else {
      KeyFoldConcat(o, xs, ys[..|ys| - 1], k);
      assert (xs + ys)[..|xs + ys| - 1] == xs + ys[..|ys| - 1];
    }
  }

  lemma KeyFoldSnoc(o: Option<Vector>, xs: seq<Frame>, f: Frame, k: Key)
    ensures KeyFold(o, xs + [f], k) == KeyStep(KeyFold(o, xs, k), f, k)
  {
    assert (xs + [f])[..|xs|] == xs;
  }

  /** The frame is a `set`, a `def` or a `del` that concerns property `k`. */
  predicate About(f: Frame, k: Key) {
    && f.Indi?
    && match f.msg
       case DefVector(v) => (v.device, v.name) == k
       case SetVector(v, _) => (v.device, v.name) == k
       case DelProperty(device, name, _, _) => device == k.0 && (name.None? || name.value == k.1)
       case _ => false
  }

  /** The frame is the full current state of property `k`, as a `set`. */
  predicate SetsKey(f: Frame, k: Key) {
    f.Indi? && f.msg.SetVector? && f.msg.statePresent && (f.msg.vector.device, f.msg.vector.name) == k
  }

  lemma {:induction false} UnrelatedFold(o: Option<Vector>, frames: seq<Frame>, k: Key)
    requires forall i :: 0 <= i < |frames| ==> !About(frames[i], k)
    ensures KeyFold(o, frames, k) == o
  {
    if frames != [] {
      UnrelatedFold(o, frames[..|frames| - 1], k);
    }
  }

  // ------------------------------------------------------------------------ //
  // The queue                                                                 //
  // ------------------------------------------------------------------------ //

  datatype Queued = Queued(frame: Frame, key: Option<Key>)

  /** `coalescible` holds the keys whose last queued slot may still be overwritten. */
  datatype Queue = Queue(slots: seq<Queued>, coalescible: set<Key>)

  const EMPTY := Queue([], {})

  function Frames(slots: seq<Queued>): seq<Frame> {
    seq(|slots|, i requires 0 <= i < |slots| => slots[i].frame)
  }

  predicate Queues(slots: seq<Queued>, k: Key) {
    slots != [] && (slots[|slots| - 1].key == Some(k) || Queues(slots[..|slots| - 1], k))
  }

  /** The last slot queued under `k`. */
  function LastOf(slots: seq<Queued>, k: Key): (at: nat)
    requires Queues(slots, k)
    ensures at < |slots|
  {
    var last := |slots| - 1;
    if slots[last].key == Some(k) then last else LastOf(slots[..last], k)
  }

  predicate IsLastOf(slots: seq<Queued>, at: int, k: Key) {
    && 0 <= at < |slots| && slots[at].key == Some(k)
    && forall i :: at < i < |slots| ==> slots[i].key != Some(k)
  }

  lemma {:induction false} LastOfIs(slots: seq<Queued>, k: Key)
    requires Queues(slots, k)
    ensures IsLastOf(slots, LastOf(slots, k), k)
  {
    var last := |slots| - 1;
    if slots[last].key != Some(k) {
      LastOfIs(slots[..last], k);
    }
  }

  lemma {:induction false} LastOfUnique(slots: seq<Queued>, at: nat, k: Key)
    requires IsLastOf(slots, at, k)
    ensures Queues(slots, k) && LastOf(slots, k) == at
  {
    var last := |slots| - 1;
    if at < last {
      LastOfUnique(slots[..last], at, k);
    }
  }

  /** The head slot leaving, every other slot moves up by one. */
  lemma HeadPops(slots: seq<Queued>, k: Key)
    requires slots != [] && Queues(slots, k)
    ensures Queues(slots[1..], k) ==> LastOf(slots, k) == LastOf(slots[1..], k) + 1
    ensures !Queues(slots[1..], k) ==> slots[0].key == Some(k) && LastOf(slots, k) == 0
  {
    LastOfIs(slots, k);
    var at := LastOf(slots, k);
    if at > 0 {
      LastOfUnique(slots[1..], at - 1, k);
    }
    if Queues(slots[1..], k) {
      LastOfIs(slots[1..], k);
      LastOfUnique(slots, LastOf(slots[1..], k) + 1, k);
    }
  }

  predicate Overwrites(q: Queue, key: Option<Key>) {
    key.Some? && key.value in q.coalescible && Queues(q.slots, key.value)
  }

  function Enqueued(q: Queue, frame: Frame, key: Option<Key>): Queue {
    if Overwrites(q, key) then
      q.(slots := q.slots[LastOf(q.slots, key.value) := Queued(frame, key)])
    else
      Queue(q.slots + [Queued(frame, key)],
            if key.Some? then q.coalescible + {key.value} else q.coalescible)
  }

  function Invalidated(q: Queue, device: string, name: Option<string>): Queue {
    q.(coalescible := set k | k in q.coalescible && !(k.0 == device && (name.None? || k.1 == name.value)))
  }

  /** The slot at the head leaves; its key goes with it unless a later slot holds it. */
  function Popped(q: Queue): Queue
    requires q.slots != []
  {
    var key := q.slots[0].key;
    Queue(q.slots[1..],
          if key.Some? && !Queues(q.slots[1..], key.value) then q.coalescible - {key.value}
          else q.coalescible)
  }

  /** How the bridge queues one frame: a `set` under its key, a `def` or a `del`
      behind an invalidation (src/indikit/web/bridge.py:650-674, 733-736). */
  function Offered(q: Queue, f: Frame): Queue {
    if !f.Indi? then Enqueued(q, f, None)
    else
      match f.msg
      case SetVector(v, _) => Enqueued(q, f, Some((v.device, v.name)))
      case DefVector(v) => Enqueued(Invalidated(q, v.device, Some(v.name)), f, None)
      case DelProperty(device, name, _, _) => Enqueued(Invalidated(q, device, name), f, None)
      case _ => Enqueued(q, f, None)
  }

  /** A key that may be overwritten is queued, under the last frame about it. */
  ghost predicate Sound(q: Queue) {
    && (forall i, k :: 0 <= i < |q.slots| && q.slots[i].key == Some(k) ==> SetsKey(q.slots[i].frame, k))
    && forall k :: k in q.coalescible ==> LastAboutIsQueued(q, k)
  }

  ghost predicate LastAboutIsQueued(q: Queue, k: Key) {
    && Queues(q.slots, k)
    && forall i :: LastOf(q.slots, k) < i < |q.slots| ==> !About(q.slots[i].frame, k)
  }

  // ------------------------------------------------------------------------ //
  // Exactly when a `set` overwrites                                           //
  // ------------------------------------------------------------------------ //

  /** A `def` or a `del` of the property, which no later `set` of it may overtake. */
  predicate Bars(f: Frame, k: Key) {
    About(f, k) && !f.msg.SetVector?
  }

  predicate BarredAt(slots: seq<Queued>, i: int, k: Key) {
    0 <= i < |slots| && Bars(slots[i].frame, k)
  }

  /** A slot is queued under the property with no `def` or `del` of it behind. */
  ghost predicate OpenAt(slots: seq<Queued>, i: int, k: Key) {
    && 0 <= i < |slots| && slots[i].key == Some(k)
    && forall j :: i < j < |slots| ==> !Bars(slots[j].frame, k)
  }

  ghost predicate IsOpen(slots: seq<Queued>, k: Key) {
    exists i :: OpenAt(slots, i, k)
  }

  /** A property can be overwritten exactly while a slot of it is open, and between two
      slots of one property there is a `def` or a `del` of it. */
  ghost predicate Tight(q: Queue) {
    && (forall k :: k in q.coalescible <==> IsOpen(q.slots, k))
    && (forall i :: KeyedAt(q.slots, i))
    && forall i, j, k :: Separated(q.slots, i, j, k)
  }

  /** What is queued under a property is a `set` of it. */
  predicate KeyedAt(slots: seq<Queued>, i: int) {
    0 <= i < |slots| && slots[i].key.Some? ==> slots[i].frame.Indi? && slots[i].frame.msg.SetVector?
  }

  ghost predicate Separated(slots: seq<Queued>, i: int, j: int, k: Key) {
    0 <= i < j < |slots| && slots[i].key == Some(k) && slots[j].key == Some(k) ==>
      exists m :: i < m < j && BarredAt(slots, m, k)
  }

  /** A frame that joins the queue opens its own property, closes those it bars, and
      leaves the others as they were. */
  lemma AppendOpens(slots: seq<Queued>, last: Queued, k: Key)
    ensures IsOpen(slots + [last], k) <==> last.key == Some(k) || (IsOpen(slots, k) && !Bars(last.frame, k))
  {
    var more := slots + [last];
    assert forall j :: 0 <= j < |slots| ==> more[j] == slots[j];
    if last.key == Some(k) {
      assert OpenAt(more, |slots|, k);
    } else if IsOpen(more, k) {
      var i :| OpenAt(more, i, k);
      assert more[|slots|] == last && OpenAt(slots, i, k);
    }
    if IsOpen(slots, k) && !Bars(last.frame, k) {
      var i :| OpenAt(slots, i, k);
      assert OpenAt(more, i, k);
    }
  }

  lemma AppendSeparates(slots: seq<Queued>, last: Queued)
    requires forall i, j, k :: Separated(slots, i, j, k)
    requires last.key.Some? ==> !IsOpen(slots, last.key.value)
    ensures forall i, j, k :: Separated(slots + [last], i, j, k)
  {
    var more := slots + [last];
    forall i, j, k ensures Separated(more, i, j, k) {
      assert Separated(slots, i, j, k);
      if 0 <= i < j < |slots| && more[i].key == Some(k) && more[j].key == Some(k) {
        var m :| i < m < j && BarredAt(slots, m, k);
        assert BarredAt(more, m, k);
      } else if 0 <= i < j == |slots| && more[i].key == Some(k) && last.key == Some(k) {
        assert !OpenAt(slots, i, k);
        var m :| i < m < |slots| && Bars(slots[m].frame, k);
        assert BarredAt(more, m, k);
      }
    }
  }

  /** Overwriting a `set` by a `set` moves no bar and no slot. */
  lemma OverwriteOpens(slots: seq<Queued>, at: nat, f: Frame, key: Key)
    requires at < |slots| && slots[at].key == Some(key) && (forall i :: KeyedAt(slots, i))
    requires f.Indi? && f.msg.SetVector?
    ensures var next := slots[at := Queued(f, Some(key))];
            && (forall k :: IsOpen(next, k) <==> IsOpen(slots, k)) && (forall i :: KeyedAt(next, i))
            && ((forall i, j, k :: Separated(slots, i, j, k)) ==> forall i, j, k :: Separated(next, i, j, k))
  {
    var next := slots[at := Queued(f, Some(key))];
    assert KeyedAt(slots, at);
    forall k, i ensures BarredAt(next, i, k) == BarredAt(slots, i, k) && OpenAt(next, i, k) == OpenAt(slots, i, k) {
      assert forall j :: 0 <= j < |slots| ==> Bars(next[j].frame, k) == Bars(slots[j].frame, k);
    }
    forall i ensures KeyedAt(next, i) {
      assert KeyedAt(slots, i);
    }
    if forall i, j, k :: Separated(slots, i, j, k) {
      forall i, j, k ensures Separated(next, i, j, k) {
        assert Separated(slots, i, j, k);
        if 0 <= i < j < |slots| && next[i].key == Some(k) && next[j].key == Some(k) {
          var m :| i < m < j && BarredAt(slots, m, k);
          assert BarredAt(next, m, k);
        }
      }
    }
  }

  /** A frame queued under the property it sets, or under none. */
  lemma EnqueuedTight(q: Queue, f: Frame, key: Option<Key>)
    requires (forall i :: KeyedAt(q.slots, i)) && (forall i, j, k :: Separated(q.slots, i, j, k))
    requires forall k :: k in q.coalescible <==> IsOpen(q.slots, k) && !Bars(f, k)
    requires key.Some? ==> f.Indi? && f.msg.SetVector?
    ensures Tight(Enqueued(q, f, key))
    ensures key.Some? && IsOpen(q.slots, key.value) ==> |Enqueued(q, f, key).slots| == |q.slots|
    ensures !(key.Some? && IsOpen(q.slots, key.value)) ==> Enqueued(q, f, key).slots == q.slots + [Queued(f, key)]
  {
    hide About;
    if key.Some? && IsOpen(q.slots, key.value) {
      var i :| OpenAt(q.slots, i, key.value);
      SomeQueues(q.slots, i, key.value);
      LastOfIs(q.slots, key.value);
      OverwriteOpens(q.slots, LastOf(q.slots, key.value), f, key.value);
    } else {
      var last := Queued(f, key);
      AppendSeparates(q.slots, last);
      forall k ensures k in Enqueued(q, f, key).coalescible <==> IsOpen(q.slots + [last], k) {
        AppendOpens(q.slots, last, k);
      }
      forall i ensures KeyedAt(q.slots + [last], i) {
        assert KeyedAt(q.slots, i);
      }
    }
  }

  lemma {:induction false} SomeQueues(slots: seq<Queued>, i: int, k: Key)
    requires 0 <= i < |slots| && slots[i].key == Some(k)
    ensures Queues(slots, k)
  {
    if i < |slots| - 1 {
      SomeQueues(slots[..|slots| - 1], i, k);
    }
  }

  /** The property a frame would overwrite a queued `set` of. */
  function KeySet(f: Frame): Option<Key> {
    if f.Indi? && f.msg.SetVector? then Some((f.msg.vector.device, f.msg.vector.name)) else None
  }

  /** Offering a frame to a tight queue leaves it tight, and adds a slot unless the frame is
      a `set` of a property that is open. */
  lemma OfferedTight(q: Queue, f: Frame)
    requires Tight(q)
    ensures Tight(Offered(q, f))
    ensures |Offered(q, f).slots|
            == |q.slots| + if KeySet(f).Some? && IsOpen(q.slots, KeySet(f).value) then 0 else 1
    ensures KeySet(f).Some? && IsOpen(q.slots, KeySet(f).value) <==> Overwrites(q, KeySet(f))
  {
    var barred := if f.Indi? && f.msg.DefVector? then Invalidated(q, f.msg.vector.device, Some(f.msg.vector.name))
                  else if f.Indi? && f.msg.DelProperty? then Invalidated(q, f.msg.device, f.msg.name) else q;
    assert Offered(q, f) == Enqueued(barred, f, KeySet(f));
    hide Enqueued, IsOpen, Separated, KeyedAt;
    EnqueuedTight(barred, f, KeySet(f));
    if KeySet(f).Some? && IsOpen(q.slots, KeySet(f).value) {
      OpenQueues(q.slots, KeySet(f).value);
    }
  }

  lemma OpenQueues(slots: seq<Queued>, k: Key)
    requires IsOpen(slots, k)
    ensures Queues(slots, k)
  {
    var i :| OpenAt(slots, i, k);
    SomeQueues(slots, i, k);
  }

  /** While a slot of an open property remains, the property is open. */
  lemma PoppedOpens(slots: seq<Queued>, k: Key)
    requires slots != []
    ensures IsOpen(slots[1..], k) <==> IsOpen(slots, k) && Queues(slots[1..], k)
  {
    if IsOpen(slots[1..], k) {
      OpenQueues(slots[1..], k);
      var i :| OpenAt(slots[1..], i, k);
      assert forall j :: 0 < j < |slots| ==> slots[1..][j - 1] == slots[j];
      assert OpenAt(slots, i + 1, k);
    } else if IsOpen(slots, k) && Queues(slots[1..], k) {
      var i :| OpenAt(slots, i, k);
      var at := if i > 0 then i - 1 else LastOf(slots[1..], k);
      LastOfIs(slots[1..], k);
      assert OpenAt(slots[1..], at, k);
    }
  }

  lemma PoppedTight(q: Queue)
    requires Tight(q) && q.slots != []
    ensures Tight(Popped(q))
  {
    forall k ensures k in Popped(q).coalescible <==> IsOpen(q.slots[1..], k) {
      PoppedOpens(q.slots, k);
      if IsOpen(q.slots, k) {
        OpenQueues(q.slots, k);
        HeadPops(q.slots, k);
      }
    }
    forall i ensures KeyedAt(q.slots[1..], i) {
      assert KeyedAt(q.slots, i + 1);
    }
    forall i, j, k ensures Separated(q.slots[1..], i, j, k) {
      assert Separated(q.slots, i + 1, j + 1, k);
      if 0 <= i < j < |q.slots| - 1 && q.slots[i + 1].key == Some(k) && q.slots[j + 1].key == Some(k) {
        var m :| i + 1 < m < j + 1 && BarredAt(q.slots, m, k);
        assert BarredAt(q.slots[1..], m - 1, k);
      }
    }
  }

  /** Every `set` in the frames is a full state carrying its own state flag. */
  predicate FullSet(f: Frame) {
    f.Indi? && f.msg.SetVector? ==> f.msg.statePresent
  }

  lemma OverwriteSound(q: Queue, f: Frame, k: Key)
    requires Sound(q) && k in q.coalescible && SetsKey(f, k)
    ensures Sound(Enqueued(q, f, Some(k)))
    ensures LastOf(Enqueued(q, f, Some(k)).slots, k) == LastOf(q.slots, k)
  {
    assert LastAboutIsQueued(q, k);
    var r := Enqueued(q, f, Some(k));
    LastOfIs(q.slots, k);
    LastOfUnique(r.slots, LastOf(q.slots, k), k);
    forall other | other in q.coalescible ensures LastAboutIsQueued(r, other) {
      assert LastAboutIsQueued(q, other);
      LastOfIs(q.slots, other);
      LastOfUnique(r.slots, LastOf(q.slots, other), other);
    }
  }

  lemma AppendSound(q: Queue, f: Frame, key: Option<Key>)
    requires Sound(q) && !Overwrites(q, key)
    requires key.Some? ==> SetsKey(f, key.value)
    requires forall k :: k in q.coalescible && key != Some(k) ==> !About(f, k)
    ensures Sound(Enqueued(q, f, key))
    ensures key.Some? ==> LastOf(Enqueued(q, f, key).slots, key.value) == |q.slots|
  {
    var r := Enqueued(q, f, key);
    forall k | k in r.coalescible ensures LastAboutIsQueued(r, k) {
      if key == Some(k) {
        LastOfUnique(r.slots, |q.slots|, k);
      } else {
        assert LastAboutIsQueued(q, k);
        LastOfIs(q.slots, k);
        LastOfUnique(r.slots, LastOf(q.slots, k), k);
      }
    }
  }

  lemma InvalidatedSound(q: Queue, device: string, name: Option<string>)
    requires Sound(q)
    ensures Sound(Invalidated(q, device, name))
  {
    forall k | k in Invalidated(q, device, name).coalescible
      ensures LastAboutIsQueued(Invalidated(q, device, name), k)
    {
      assert LastAboutIsQueued(q, k);
    }
  }

  lemma OfferedSound(q: Queue, f: Frame)
    requires Sound(q) && FullSet(f)
    ensures Sound(Offered(q, f))
  {
    if f.Indi? && f.msg.SetVector? {
      var k := (f.msg.vector.device, f.msg.vector.name);
      if Overwrites(q, Some(k)) {
        OverwriteSound(q, f, k);
      } else {
        AppendSound(q, f, Some(k));
      }
    } else if f.Indi? && f.msg.DefVector? {
      InvalidatedSound(q, f.msg.vector.device, Some(f.msg.vector.name));
      AppendSound(Invalidated(q, f.msg.vector.device, Some(f.msg.vector.name)), f, None);
    } else if f.Indi? && f.msg.DelProperty? {
      InvalidatedSound(q, f.msg.device, f.msg.name);
      AppendSound(Invalidated(q, f.msg.device, f.msg.name), f, None);
    } else {
      AppendSound(q, f, None);
    }
  }

  /** Popping takes the head, and a key can still be overwritten exactly while a slot
      queued under it remains. */
  lemma PoppedSound(q: Queue)
    requires Sound(q) && q.slots != []
    ensures Sound(Popped(q))
    ensures Frames(q.slots) == [q.slots[0].frame] + Frames(Popped(q).slots)
    ensures forall k :: k in Popped(q).coalescible <==> k in q.coalescible && Queues(q.slots[1..], k)
  {
    var r := Popped(q);
    forall k | k in q.coalescible
      ensures k in r.coalescible <==> Queues(q.slots[1..], k)
      ensures k in r.coalescible ==> LastAboutIsQueued(r, k)
    {
      assert LastAboutIsQueued(q, k);
      if k in r.coalescible {
        HeadPops(q.slots, k);
      }
    }
  }

  // ------------------------------------------------------------------------ //
  // Coalescing refines the plain queue                                        //
  // ------------------------------------------------------------------------ //

  function LastAbout(frames: seq<Frame>, k: Key): (last: Option<Frame>)
    ensures last.None? <==> forall i :: 0 <= i < |frames| ==> !About(frames[i], k)
    ensures last.Some? ==> About(last.value, k)
  {
    if frames == [] then None
    else if About(frames[|frames| - 1], k) then Some(frames[|frames| - 1])
    else LastAbout(frames[..|frames| - 1], k)
  }

  /** A `set` follows the previous `set` of the same definition. */
  predicate Follows(frames: seq<Frame>, f: Frame) {
    f.Indi? && f.msg.SetVector? ==>
      var last := LastAbout(frames, (f.msg.vector.device, f.msg.vector.name));
      last.Some? && last.value.msg.SetVector? ==> Precedes(last.value.msg.vector, f.msg.vector)
  }

  /** What an upstream store broadcasts: full states, each `set` following the last. */
  predicate Orderly(frames: seq<Frame>) {
    forall n :: 0 <= n < |frames| ==> FullSet(frames[n]) && Follows(frames[..n], frames[n])
  }

  lemma OrderlySnoc(frames: seq<Frame>, f: Frame)
    requires Orderly(frames) && FullSet(f) && Follows(frames, f)
    ensures Orderly(frames + [f])
  {
    forall n | 0 <= n < |frames + [f]|
      ensures FullSet((frames + [f])[n]) && Follows((frames + [f])[..n], (frames + [f])[n])
    {
      assert (frames + [f])[..n] == frames[..n];
      assert frames[..|frames|] == frames;
    }
  }

  /** One browser's traffic: everything offered, what was popped, what is queued. */
  datatype Traffic = Traffic(offered: seq<Frame>, popped: seq<Frame>, queue: Queue)

  function Delivered(t: Traffic): seq<Frame> {
    t.popped + Frames(t.queue.slots)
  }

  /** The queue is sound and its overwritable slots hold the last frame offered. */
  ghost predicate Faithful(t: Traffic) {
    && Sound(t.queue) && Tight(t.queue)
    && Orderly(t.offered)
    && (forall k :: k in t.queue.coalescible ==> TopOfQueue(t, k))
    && forall o, k :: SameFate(t, o, k)
  }

  ghost predicate TopOfQueue(t: Traffic, k: Key) {
    Queues(t.queue.slots, k) && LastAbout(t.offered, k) == Some(t.queue.slots[LastOf(t.queue.slots, k)].frame)
  }

  ghost predicate SameFate(t: Traffic, o: Option<Vector>, k: Key) {
    KeyFold(o, Delivered(t), k) == KeyFold(o, t.offered, k)
  }

  function Offer(t: Traffic, f: Frame): Traffic {
    Traffic(t.offered + [f], t.popped, Offered(t.queue, f))
  }

  function Pop(t: Traffic): Traffic
    requires t.queue.slots != []
  {
    Traffic(t.offered, t.popped + [t.queue.slots[0].frame], Popped(t.queue))
  }

  lemma LastAboutSnoc(frames: seq<Frame>, f: Frame, k: Key)
    ensures LastAbout(frames + [f], k) == if About(f, k) then Some(f) else LastAbout(frames, k)
  {
    assert (frames + [f])[..|frames|] == frames;
  }

  lemma FramesSnoc(slots: seq<Queued>, last: Queued)
    ensures Frames(slots + [last]) == Frames(slots) + [last.frame]
  {
  }

  /** A frame that joins the queue at its end is one more frame in every fold. */
  lemma AppendSameFate(t: Traffic, q: Queue, f: Frame, key: Option<Key>, o: Option<Vector>, k: Key)
    requires SameFate(t, o, k) && q.slots == t.queue.slots && !Overwrites(q, key)
    ensures SameFate(Traffic(t.offered + [f], t.popped, Enqueued(q, f, key)), o, k)
  {
    hide KeyFold, KeyStep;
    FramesSnoc(q.slots, Queued(f, key));
    assert t.popped + (Frames(q.slots) + [f]) == Delivered(t) + [f];
    KeyFoldSnoc(o, Delivered(t), f, k);
    KeyFoldSnoc(o, t.offered, f, k);
  }

  /** Which frame an overwriting `set` replaces among those a browser will have been sent:
      an earlier state of the same property, with frames about other ones behind it. */
  lemma OverwriteSplits(t: Traffic, f: Frame, key: Key) returns (head: seq<Frame>, gone: Frame, tail: seq<Frame>)
    requires Faithful(t) && key in t.queue.coalescible
    requires SetsKey(f, key) && Follows(t.offered, f)
    ensures Delivered(t) == head + [gone] + tail && Delivered(Offer(t, f)) == head + [f] + tail
    ensures SetsKey(gone, key) && Precedes(gone.msg.vector, f.msg.vector)
    ensures forall i :: 0 <= i < |tail| ==> !About(tail[i], key)
  {
    hide SameFate, Orderly, Precedes;
    assert TopOfQueue(t, key) && LastAboutIsQueued(t.queue, key);
    LastOfIs(t.queue.slots, key);
    var at := LastOf(t.queue.slots, key);
    var before, after := Frames(t.queue.slots), Frames(Offer(t, f).queue.slots);
    head, gone, tail := t.popped + before[..at], before[at], before[at + 1..];
    assert t.popped + before == head + [gone] + tail;
    assert t.popped + after == head + [f] + tail;
  }

  /** A `set` that overwrites the queued one of its own property hides it: the frames
      behind it concern other properties, and the later state absorbs the earlier. */
  lemma OverwriteSameFate(t: Traffic, f: Frame, key: Key, o: Option<Vector>, k: Key)
    requires Faithful(t) && key in t.queue.coalescible
    requires SetsKey(f, key) && Follows(t.offered, f)
    ensures SameFate(Offer(t, f), o, k)
  {
    var head, gone, tail := OverwriteSplits(t, f, key);
    assert SameFate(t, o, k);
    hide Delivered, Faithful, Offered, Follows, Precedes;
    KeyFoldConcat(o, head + [gone], tail, k);
    KeyFoldConcat(o, head + [f], tail, k);
    KeyFoldSnoc(o, head, gone, k);
    KeyFoldSnoc(o, head, f, k);
    KeyFoldSnoc(o, t.offered, f, k);
    if k == key {
      UnrelatedFold(KeyFold(o, head + [gone], k), tail, k);
      UnrelatedFold(KeyFold(o, head + [f], k), tail, k);
      var x := KeyFold(o, head, k);
      if x.Some? {
        EarlierStateIsHidden(x.value, gone.msg.vector, f.msg.vector);
      }
    }
  }

  /** A slot queued under another key leaves the last one under `k` as it was. */
  lemma EnqueuedLeavesOthers(q: Queue, f: Frame, key: Option<Key>, k: Key)
    requires Queues(q.slots, k) && key != Some(k)
    ensures var slots := Enqueued(q, f, key).slots;
            && Queues(slots, k) && LastOf(slots, k) == LastOf(q.slots, k)
            && slots[LastOf(q.slots, k)] == q.slots[LastOf(q.slots, k)]
  {
    LastOfIs(q.slots, k);
    if Overwrites(q, key) {
      LastOfIs(q.slots, key.value);
    }
    LastOfUnique(Enqueued(q, f, key).slots, LastOf(q.slots, k), k);
  }

  /** A frame about other properties leaves the last slot under `k` as it was. */
  lemma OfferLeavesOthers(q: Queue, f: Frame, k: Key)
    requires Sound(q) && k in q.coalescible && !About(f, k)
    ensures Queues(q.slots, k) && Queues(Offered(q, f).slots, k)
    ensures LastOf(Offered(q, f).slots, k) == LastOf(q.slots, k)
    ensures Offered(q, f).slots[LastOf(q.slots, k)] == q.slots[LastOf(q.slots, k)]
  {
    assert LastAboutIsQueued(q, k);
    var key := if f.Indi? && f.msg.SetVector? then Some((f.msg.vector.device, f.msg.vector.name)) else None;
    EnqueuedLeavesOthers(q, f, key, k);
  }

  lemma OfferTop(t: Traffic, f: Frame, k: Key)
    requires Faithful(t) && FullSet(f) && k in Offer(t, f).queue.coalescible
    ensures TopOfQueue(Offer(t, f), k)
  {
    LastAboutSnoc(t.offered, f, k);
    if About(f, k) {
      if Overwrites(t.queue, Some(k)) {
        OverwriteSound(t.queue, f, k);
      } else {
        AppendSound(t.queue, f, Some(k));
      }
    } else {
      assert TopOfQueue(t, k);
      OfferLeavesOthers(t.queue, f, k);
    }
  }

  lemma OfferFaithful(t: Traffic, f: Frame)
    requires Faithful(t) && FullSet(f) && Follows(t.offered, f)
    ensures Faithful(Offer(t, f))
  {
    OfferedSound(t.queue, f);
    OfferedTight(t.queue, f);
    hide Tight;
    OrderlySnoc(t.offered, f);
    forall k | k in Offer(t, f).queue.coalescible ensures TopOfQueue(Offer(t, f), k) {
      OfferTop(t, f, k);
    }
    forall o, k ensures SameFate(Offer(t, f), o, k) {
      assert SameFate(t, o, k);
      if f.Indi? && f.msg.SetVector? {
        var key := (f.msg.vector.device, f.msg.vector.name);
        if Overwrites(t.queue, Some(key)) {
          OverwriteSameFate(t, f, key, o, k);
        } else {
          AppendSameFate(t, t.queue, f, Some(key), o, k);
        }
      } else if f.Indi? && f.msg.DefVector? {
        AppendSameFate(t, Invalidated(t.queue, f.msg.vector.device, Some(f.msg.vector.name)), f, None, o, k);
      } else if f.Indi? && f.msg.DelProperty? {
        AppendSameFate(t, Invalidated(t.queue, f.msg.device, f.msg.name), f, None, o, k);
      } else {
        AppendSameFate(t, t.queue, f, None, o, k);
      }
    }
  }

  lemma PopFaithful(t: Traffic)
    requires Faithful(t) && t.queue.slots != []
    ensures Faithful(Pop(t))
    ensures Delivered(Pop(t)) == Delivered(t)
  {
    PoppedSound(t.queue);
    PoppedTight(t.queue);
    hide Tight;
    var r := Pop(t).queue;
    forall k | k in r.coalescible ensures TopOfQueue(Pop(t), k) {
      assert TopOfQueue(t, k) && LastAboutIsQueued(r, k);
      HeadPops(t.queue.slots, k);
    }
    assert Delivered(Pop(t)) == Delivered(t);
    forall o, k ensures SameFate(Pop(t), o, k) {
      assert SameFate(t, o, k);
    }
  }

  // ------------------------------------------------------------------------ //
  // What is never lost, and what is counted when it is                        //
  // ------------------------------------------------------------------------ //

  predicate IsNote(f: Frame) {
    f.Indi? && f.msg.Message?
  }

  /** The log messages among the frames, in order. */
  function Notes(frames: seq<Frame>): seq<Frame> {
    if frames == [] then []
    else Notes(frames[..|frames| - 1]) + (if IsNote(frames[|frames| - 1]) then [frames[|frames| - 1]] else [])
  }

  lemma {:induction false} NotesConcat(xs: seq<Frame>, ys: seq<Frame>)
    ensures Notes(xs + ys) == Notes(xs) + Notes(ys)
  {
    if ys == [] {
      assert xs + ys == xs;
    } else {
      NotesConcat(xs, ys[..|ys| - 1]);
      assert (xs + ys)[..|xs + ys| - 1] == xs + ys[..|ys| - 1];
    }
  }

  lemma NotesOne(f: Frame)
    ensures Notes([f]) == if IsNote(f) then [f] else []
  {
    assert [f][..0] == [];
  }

  predicate IsBlobSet(f: Frame) {
    f.Indi? && f.msg.SetVector? && f.msg.vector.kind == BlobKind
  }

  function Blobs(frames: seq<Frame>): nat {
    if frames == [] then 0
    else Blobs(frames[..|frames| - 1]) + if IsBlobSet(frames[|frames| - 1]) then 1 else 0
  }

  lemma {:induction false} BlobsConcat(xs: seq<Frame>, ys: seq<Frame>)
    ensures Blobs(xs + ys) == Blobs(xs) + Blobs(ys)
  {
    if ys == [] {
      assert xs + ys == xs;
    } else {
      BlobsConcat(xs, ys[..|ys| - 1]);
      assert (xs + ys)[..|xs + ys| - 1] == xs + ys[..|ys| - 1];
    }
  }

  lemma BlobsOne(f: Frame)
    ensures Blobs([f]) == if IsBlobSet(f) then 1 else 0
  {
    assert [f][..0] == [];
  }

  predicate Replaces(q: Queue, f: Frame) {
    f.Indi? && f.msg.SetVector? && Overwrites(q, Some((f.msg.vector.device, f.msg.vector.name)))
  }

  /** Offering a frame keeps every note in its order, and an image is missing from
      what a browser will have been sent exactly when a later one replaced it. */
  lemma OfferAccounts(t: Traffic, f: Frame)
    requires Faithful(t) && FullSet(f) && Follows(t.offered, f)
    ensures Notes(Delivered(Offer(t, f))) == Notes(Delivered(t)) + Notes([f])
    ensures Blobs(Delivered(Offer(t, f))) + (if Replaces(t.queue, f) && IsBlobSet(f) then 1 else 0)
            == Blobs(Delivered(t)) + Blobs([f])
  {
    if Replaces(t.queue, f) {
      var head, gone, tail := OverwriteSplits(t, f, (f.msg.vector.device, f.msg.vector.name));
      hide Notes, Blobs, Delivered, Offer, Faithful, Replaces;
      assert head + [gone] + tail == head + ([gone] + tail) && head + [f] + tail == head + ([f] + tail);
      ReplacingAccounts(head, gone, f, tail);
    } else {
      hide Notes, Blobs, Faithful;
      assert Delivered(Offer(t, f)) == Delivered(t) + [f];
      NotesConcat(Delivered(t), [f]);
      BlobsConcat(Delivered(t), [f]);
    }
  }

  lemma ReplacingAccounts(head: seq<Frame>, gone: Frame, f: Frame, tail: seq<Frame>)
    requires !IsNote(gone) && !IsNote(f) && IsBlobSet(gone) == IsBlobSet(f)
    ensures Notes(head + ([f] + tail)) == Notes(head + ([gone] + tail)) + Notes([f])
    ensures Blobs(head + ([f] + tail)) + (if IsBlobSet(f) then 1 else 0) == Blobs(head + ([gone] + tail)) + Blobs([f])
  {
    NotesConcat(head, [gone] + tail);
    NotesConcat(head, [f] + tail);
    NotesConcat([gone], tail);
    NotesConcat([f], tail);
    BlobsConcat(head, [gone] + tail);
    BlobsConcat(head, [f] + tail);
    BlobsConcat([gone], tail);
    BlobsConcat([f], tail);
    NotesOne(gone);
    NotesOne(f);
    BlobsOne(gone);
    BlobsOne(f);
  }

  /** What the frames last said of the upstream connection. */
  function Status(frames: seq<Frame>): Option<bool> {
    if frames == [] then None
    else
      var last := frames[|frames| - 1];
      if last.ConnectionFrame? then Some(last.connected) else Status(frames[..|frames| - 1])
  }

  lemma {:induction false} StatusConcat(xs: seq<Frame>, ys: seq<Frame>)
    ensures Status(xs + ys) == if Status(ys).Some? then Status(ys) else Status(xs)
  {
    if ys == [] {
      assert xs + ys == xs;
    } else {
      StatusConcat(xs, ys[..|ys| - 1]);
      assert (xs + ys)[..|xs + ys| - 1] == xs + ys[..|ys| - 1];
    }
  }

  lemma StatusOne(f: Frame)
    ensures Status([f]) == if f.ConnectionFrame? then Some(f.connected) else None
  {
    assert [f][..0] == [];
  }

  /** Whatever a frame overwrites, the last word on the connection is the last one offered. */
  lemma OfferTells(t: Traffic, f: Frame)
    requires Faithful(t) && FullSet(f) && Follows(t.offered, f)
    ensures Status(Delivered(Offer(t, f)))
            == if f.ConnectionFrame? then Some(f.connected) else Status(Delivered(t))
  {
    if Replaces(t.queue, f) {
      var head, gone, tail := OverwriteSplits(t, f, (f.msg.vector.device, f.msg.vector.name));
      hide Status, Delivered, Offer, Faithful, Replaces;
      StatusConcat(head + [gone], tail);
      StatusConcat(head + [f], tail);
      StatusConcat(head, [gone]);
      StatusConcat(head, [f]);
      StatusOne(gone);
      StatusOne(f);
    } else {
      hide Faithful;
      assert Delivered(Offer(t, f)) == Delivered(t) + [f];
      assert (Delivered(t) + [f])[..|Delivered(t)|] == Delivered(t);
    }
  }

  datatype TrafficOp = Offering(frame: Frame) | Popping

  /** A run of one queue from empty; popping an empty queue waits, changing nothing. */
  function Ran(ops: seq<TrafficOp>): Traffic {
    if ops == [] then Traffic([], [], EMPTY)
    else
      var t := Ran(ops[..|ops| - 1]);
      match ops[|ops| - 1]
      case Offering(f) => Offer(t, f)
      case Popping => if t.queue.slots == [] then t else Pop(t)
  }

  /** The frames a run is offered, which is all that the plain queue would hold. */
  function Offers(ops: seq<TrafficOp>): seq<Frame> {
    if ops == [] then []
    else
      var before := Offers(ops[..|ops| - 1]);
      match ops[|ops| - 1]
      case Offering(f) => before + [f]
      case Popping => before
  }

  lemma {:induction false} RanFaithful(ops: seq<TrafficOp>)
    requires Orderly(Offers(ops))
    ensures Faithful(Ran(ops)) && Ran(ops).offered == Offers(ops)
  {
    if ops != [] {
      var init := ops[..|ops| - 1];
      var offers := Offers(ops);
      assert Offers(init) == offers || Offers(init) == offers[..|offers| - 1];
      assert forall n :: 0 <= n < |Offers(init)| ==> Offers(init)[..n] == offers[..n];
      RanFaithful(init);
      match ops[|ops| - 1] {
        case Offering(f) =>
          assert FullSet(offers[|offers| - 1]) && Follows(offers[..|offers| - 1], offers[|offers| - 1]);
          OfferFaithful(Ran(init), f);
        case Popping =>
          if Ran(init).queue.slots != [] {
            PopFaithful(Ran(init));
          }
      }
    }
  }

  /** The coalesced queue refines the plain one: from any browser cache, what was
      popped followed by what is queued gives the property map that every offered
      frame, none of them coalesced, would have given. */
  lemma CoalescingRefinesFifo(ops: seq<TrafficOp>, browser: Cache, k: Key)
    requires Orderly(Offers(ops))
    ensures Lookup(Folded(browser, Delivered(Ran(ops))), k) == Lookup(Folded(browser, Offers(ops)), k)
  {
    RanFaithful(ops);
    assert SameFate(Ran(ops), Lookup(browser, k), k);
    FoldedAt(browser, Delivered(Ran(ops)), k);
    FoldedAt(browser, Offers(ops), k);
  }

  // ------------------------------------------------------------------------ //
  // That it does coalesce                                                     //
  // ------------------------------------------------------------------------ //

  /** In every run, whatever is offered: a property can be overwritten exactly while a slot
      of it is queued with no `def` or `del` of it behind, and between two slots of one
      property there is one. */
  lemma {:induction false} RanTight(ops: seq<TrafficOp>)
    ensures Tight(Ran(ops).queue)
  {
    hide Tight, Offered, Popped;
    if ops == [] {
      NothingTight();
    } else {
      RanTight(ops[..|ops| - 1]);
      var q := Ran(ops[..|ops| - 1]).queue;
      match ops[|ops| - 1]
      case Offering(f) => OfferedTight(q, f);
      case Popping =>
        if q.slots != [] {
          PoppedTight(q);
        }
    }
  }

  lemma NothingTight()
    ensures Tight(EMPTY)
  {
  }

  /** The operations concern other properties alone. */
  predicate Elsewhere(ops: seq<TrafficOp>, k: Key) {
    forall i :: 0 <= i < |ops| ==> ops[i].Offering? ==> !About(ops[i].frame, k)
  }

  /** After a `set` of a property and whatever concerns others, the property is open as
      long as a slot of it is queued. */
  lemma {:induction false} StaysOpen(ops: seq<TrafficOp>, f: Frame, between: seq<TrafficOp>, k: Key)
    requires KeySet(f) == Some(k) && Elsewhere(between, k)
    ensures var slots := Ran(ops + [Offering(f)] + between).queue.slots;
            IsOpen(slots, k) <==> Queues(slots, k)
  {
    hide IsOpen, Queues, About, Tight, Offered, Popped;
    var all := ops + [Offering(f)] + between;
    if between == [] {
      assert all[..|all| - 1] == ops;
      RanTight(ops);
      SetOpens(Ran(ops).queue, f, k);
    } else {
      var last := |between| - 1;
      assert all[..|all| - 1] == ops + [Offering(f)] + between[..last];
      StaysOpen(ops, f, between[..last], k);
      var q := Ran(all[..|all| - 1]).queue;
      RanTight(all[..|all| - 1]);
      match between[last]
      case Offering(g) => OtherLeavesOpen(q, g, k);
      case Popping =>
        if q.slots != [] {
          PopLeavesOpen(q, k);
        }
    }
  }

  lemma PopLeavesOpen(q: Queue, k: Key)
    requires q.slots != [] && (IsOpen(q.slots, k) <==> Queues(q.slots, k))
    ensures IsOpen(Popped(q).slots, k) <==> Queues(Popped(q).slots, k)
  {
    hide IsOpen;
    PoppedOpens(q.slots, k);
    if Queues(q.slots[1..], k) {
      LastOfIs(q.slots[1..], k);
      SomeQueues(q.slots, LastOf(q.slots[1..], k) + 1, k);
    }
  }

  lemma SetOpens(q: Queue, f: Frame, k: Key)
    requires KeySet(f) == Some(k) && Tight(q)
    ensures IsOpen(Offered(q, f).slots, k) && Queues(Offered(q, f).slots, k)
  {
    hide IsOpen, Separated, KeyedAt;
    OfferedTight(q, f);
    OpenQueues(Offered(q, f).slots, k);
  }

  /** A frame about other properties opens none and leaves no slot of it. */
  lemma OtherLeavesOpen(q: Queue, g: Frame, k: Key)
    requires Tight(q) && !About(g, k) && (IsOpen(q.slots, k) <==> Queues(q.slots, k))
    ensures IsOpen(Offered(q, g).slots, k) <==> Queues(Offered(q, g).slots, k)
  {
    hide IsOpen, Queues, Separated, KeyedAt;
    if Overwrites(q, KeySet(g)) {
      OverwriteLeaves(q, g, KeySet(g).value, k);
      if IsOpen(q.slots, k) {
        OpenQueues(Offered(q, g).slots, k);
      }
    } else {
      AppendOpens(q.slots, Queued(g, KeySet(g)), k);
      AppendQueues(q.slots, Queued(g, KeySet(g)), k);
      assert Offered(q, g).slots == q.slots + [Queued(g, KeySet(g))];
    }
  }

  lemma AppendQueues(slots: seq<Queued>, last: Queued, k: Key)
    ensures Queues(slots + [last], k) <==> last.key == Some(k) || Queues(slots, k)
  {
    assert (slots + [last])[..|slots|] == slots;
  }

  lemma OverwriteLeaves(q: Queue, g: Frame, key: Key, k: Key)
    requires (forall i :: KeyedAt(q.slots, i)) && Overwrites(q, Some(key)) && KeySet(g) == Some(key) && key != k
    ensures IsOpen(Offered(q, g).slots, k) <==> IsOpen(q.slots, k)
    ensures Queues(Offered(q, g).slots, k) ==> Queues(q.slots, k)
  {
    var next := Offered(q, g).slots;
    LastOfIs(q.slots, key);
    OverwriteOpens(q.slots, LastOf(q.slots, key), g, key);
    if Queues(next, k) {
      LastOfIs(next, k);
      SomeQueues(q.slots, LastOf(next, k), k);
    }
  }

  /** Two `set`s of one property, with only frames about others offered between them and
      the first still queued, leave one slot: the second takes the first one's place. */
  lemma SecondSetOverwrites(ops: seq<TrafficOp>, f: Frame, between: seq<TrafficOp>, g: Frame, k: Key)
    requires KeySet(f) == Some(k) && KeySet(g) == Some(k) && Elsewhere(between, k)
    requires Queues(Ran(ops + [Offering(f)] + between).queue.slots, k)
    ensures var q := Ran(ops + [Offering(f)] + between).queue;
            var next := Ran(ops + [Offering(f)] + between + [Offering(g)]).queue;
            && k in q.coalescible && |next.slots| == |q.slots|
            && next.slots == q.slots[LastOf(q.slots, k) := Queued(g, Some(k))]
  {
    hide IsOpen, Queues;
    var before := ops + [Offering(f)] + between;
    assert (before + [Offering(g)])[..|before|] == before;
    StaysOpen(ops, f, between, k);
    RanTight(before);
    OfferedTight(Ran(before).queue, g);
  }
}
