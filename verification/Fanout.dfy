/** The bridge as a step system over values (src/indikit/web/bridge.py): one
    upstream cache of mutable vectors, any number of browsers, each with a seed of
    references still to be serialised and a coalescing queue. Every step of the
    event loop between two suspensions is one `Action`. */
module Fanout {
  import opened Wire
  import opened Merge
  import opened Store
  import opened Coalescing

  /** One attached browser: what its pump has still to send before the queue, what it
      has sent of that (`opening`), and its live traffic. */
  datatype Sub = Sub(
    preamble: seq<Frame>, seeds: seq<LiveVector>, seedFrames: seq<Frame>,
    opening: seq<Frame>, traffic: Traffic,
    live: bool, droppedForBacklog: bool, joined: nat, replacedBlobs: nat)

  /** `heap` gives each vector object its current value; `cache` files the objects.
      `log` is every message ever relayed, of which `history` are retained. */
  datatype World = World(
    heap: map<LiveVector, Vector>, cache: Nested<LiveVector>, subs: seq<Sub>,
    log: seq<Frame>, connected: bool, coalescedBlobs: nat, droppedSlowSinks: nat,
    history: nat, backlog: nat)

  function KeyOf(v: Vector): Key {
    (v.device, v.name)
  }

  function Last<T>(s: seq<T>, n: nat): seq<T> {
    if |s| <= n then s else s[|s| - n..]
  }

  /** The last elements of a list, in order, as many as there are up to `n`. */
  lemma LastEnds<T>(s: seq<T>, n: nat)
    ensures |Last(s, n)| == (if |s| < n then |s| else n) && Last(s, n) == s[|s| - |Last(s, n)|..]
  {
    assert s[0..] == s;
  }

  ghost function Row(heap: map<LiveVector, Vector>, row: map<string, LiveVector>): map<string, Vector>
    requires RowKnown(heap, row)
  {
    map n | n in row :: heap[row[n]]
  }

  ghost predicate RowKnown(heap: map<LiveVector, Vector>, row: map<string, LiveVector>) {
    forall n :: n in row ==> row[n] in heap
  }

  /** A cache of objects, read through the heap. */
  ghost function Read(heap: map<LiveVector, Vector>, cache: Nested<LiveVector>): Cache
    requires Known(heap, cache)
  {
    map d | d in cache :: Row(heap, cache[d])
  }

  ghost predicate Known(heap: map<LiveVector, Vector>, cache: Nested<LiveVector>) {
    forall d :: d in cache ==> RowKnown(heap, cache[d])
  }

  ghost predicate Closed(w: World) {
    Known(w.heap, w.cache)
  }

  /** The upstream cache. */
  ghost function Upstream(w: World): Cache
    requires Closed(w)
  {
    Read(w.heap, w.cache)
  }

  /** The upstream value of one property. */
  ghost function Held(w: World, k: Key): Option<Vector>
    requires Closed(w)
  {
    Lookup(Upstream(w), k)
  }

  ghost predicate Cached(w: World, ref: LiveVector) {
    exists d, n :: Has(w.cache, d, n) && w.cache[d][n] == ref
  }

  // ------------------------------------------------------------------------ //
  // The steps                                                                 //
  // ------------------------------------------------------------------------ //

  /** The definitions the unsent seeds would be serialised as right now. */
  function Definitions(heap: map<LiveVector, Vector>, seeds: seq<LiveVector>): seq<Frame>
    requires forall i :: 0 <= i < |seeds| ==> seeds[i] in heap
  {
    seq(|seeds|, i requires 0 <= i < |seeds| => Indi(DefVector(heap[seeds[i]])))
  }

  predicate Overruns(s: Sub, f: Frame, backlog: nat) {
    s.live && |Offer(s.traffic, f).queue.slots| > backlog
  }

  predicate Skips(s: Sub, f: Frame) {
    s.live && Replaces(s.traffic.queue, f) && IsBlobSet(f)
  }

  /** A browser's step for a frame: a live one takes it, and is live no more past the backlog. */
  function Receive(s: Sub, f: Frame, backlog: nat): Sub {
    if !s.live then s
    else
      s.(traffic := Offer(s.traffic, f),
         live := !Overruns(s, f, backlog),
         droppedForBacklog := s.droppedForBacklog || Overruns(s, f, backlog),
         replacedBlobs := s.replacedBlobs + if Skips(s, f) then 1 else 0)
  }

  function ReceiveAll(subs: seq<Sub>, f: Frame, backlog: nat): seq<Sub> {
    seq(|subs|, i requires 0 <= i < |subs| => Receive(subs[i], f, backlog))
  }

  function SkipCount(subs: seq<Sub>, f: Frame): nat {
    if subs == [] then 0
    else SkipCount(subs[..|subs| - 1], f) + if Skips(subs[|subs| - 1], f) then 1 else 0
  }

  function OverrunCount(subs: seq<Sub>, f: Frame, backlog: nat): nat {
    if subs == [] then 0
    else OverrunCount(subs[..|subs| - 1], f, backlog)
         + if Overruns(subs[|subs| - 1], f, backlog) then 1 else 0
  }

  function Broadcast(w: World, f: Frame): World {
    w.(subs := ReceiveAll(w.subs, f, w.backlog),
       coalescedBlobs := w.coalescedBlobs + SkipCount(w.subs, f),
       droppedSlowSinks := w.droppedSlowSinks + OverrunCount(w.subs, f, w.backlog))
  }

  /** The cache side of one upstream message; `ref` is the object a `def` parsed to. */
  ghost function Stored(w: World, msg: IndiMessage, ref: LiveVector): World
    requires Closed(w)
  {
    match msg
    case DefVector(v) =>
      w.(heap := w.heap[ref := v], cache := Put(w.cache, v.device, v.name, ref))
    case SetVector(v, statePresent) =>
      if Has(w.cache, v.device, v.name)
      then var cur := w.cache[v.device][v.name];
           w.(heap := w.heap[cur := MergeVector(w.heap[cur], v, statePresent)])
      else w
    case DelProperty(device, name, _, _) => w.(cache := Drop(w.cache, device, name))
    case _ => w
  }

  /** The frame a message is relayed as: an event's own rendering, or a log message. */
  ghost function Relayed(w: World, msg: IndiMessage): Option<Frame>
    requires Closed(w)
  {
    match EventOf(Upstream(w), msg)
    case Some(PropertyEvent(Defined, _, _, vector, _, _)) =>
      if vector.Some? then Some(Indi(DefVector(vector.value))) else None
    case Some(PropertyEvent(Updated, _, _, vector, _, _)) =>
      if vector.Some? then Some(Indi(SetVector(vector.value, true))) else None
    case Some(PropertyEvent(Deleted, device, name, _, why, timestamp)) =>
      Some(Indi(DelProperty(device, name, timestamp, why)))
    case None => if msg.Message? then Some(Indi(msg)) else None
  }

  /** Fold one upstream message in and relay what it changed, in one step. */
  ghost function Heard(w: World, msg: IndiMessage, ref: LiveVector): World
    requires Closed(w)
  {
    var stored := Stored(w, msg, ref);
    match Relayed(w, msg)
    case None => stored
    case Some(f) => Broadcast(if IsNote(f) then stored.(log := w.log + [f]) else stored, f)
  }

  datatype Action =
    | Receiving(msg: IndiMessage, ref: LiveVector)
    | Connecting(up: bool)
    | Attaching(seeds: seq<LiveVector>)
    | Pumping(i: nat)
    | Controlling(i: nat, frame: Frame)
    | Leaving(i: nat)

  function Attached(seeds: seq<LiveVector>, log: seq<Frame>, history: nat, connected: bool): Sub {
    Sub([Hello], seeds, Last(log, history) + [ConnectionFrame(connected)], [],
        Traffic([], [], EMPTY), true, false, |log|, 0)
  }

  predicate HasPending(s: Sub) {
    s.preamble != [] || s.seeds != [] || s.seedFrames != [] || s.traffic.queue.slots != []
  }

  /** The next frame the pump hands to the socket, a seed serialised as it is now. */
  function NextFrame(heap: map<LiveVector, Vector>, s: Sub): Frame
    requires HasPending(s) && (s.preamble == [] && s.seeds != [] ==> s.seeds[0] in heap)
  {
    if s.preamble != [] then s.preamble[0]
    else if s.seeds != [] then Indi(DefVector(heap[s.seeds[0]]))
    else if s.seedFrames != [] then s.seedFrames[0]
    else s.traffic.queue.slots[0].frame
  }

  function Pumped(heap: map<LiveVector, Vector>, s: Sub): Sub
    requires HasPending(s) && (s.preamble == [] && s.seeds != [] ==> s.seeds[0] in heap)
  {
    var sent := s.opening + [NextFrame(heap, s)];
    if s.preamble != [] then s.(preamble := s.preamble[1..], opening := sent)
    else if s.seeds != [] then s.(seeds := s.seeds[1..], opening := sent)
    else if s.seedFrames != [] then s.(seedFrames := s.seedFrames[1..], opening := sent)
    else s.(traffic := Pop(s.traffic))
  }

  ghost predicate Enabled(w: World, a: Action) {
    && Closed(w)
    && match a
       case Receiving(msg, ref) =>
         Admissible(Upstream(w), msg) && (msg.DefVector? ==> ref !in w.heap)
       case Connecting(_) => true
       case Attaching(seeds) =>
         && (forall i, j :: 0 <= i < j < |seeds| ==> seeds[i] != seeds[j])
         && (forall i :: 0 <= i < |seeds| ==> Cached(w, seeds[i]))
         && (forall d, n :: Has(w.cache, d, n) ==> w.cache[d][n] in seeds)
       case Pumping(i) =>
         && i < |w.subs| && w.subs[i].live && HasPending(w.subs[i])
         && forall j :: 0 <= j < |w.subs[i].seeds| ==> w.subs[i].seeds[j] in w.heap
       case Controlling(i, frame) => i < |w.subs| && frame.ErrorFrame?
       case Leaving(i) => i < |w.subs|
  }

  ghost function Next(w: World, a: Action): World
    requires Enabled(w, a)
  {
    match a
    case Receiving(msg, ref) => Heard(w, msg, ref)
    case Connecting(up) => Broadcast(w.(connected := up), ConnectionFrame(up))
    case Attaching(seeds) =>
      w.(subs := w.subs + [Attached(seeds, w.log, w.history, w.connected)])
    case Pumping(i) => w.(subs := w.subs[i := Pumped(w.heap, w.subs[i])])
    case Controlling(i, frame) =>
      w.(subs := w.subs[i := Receive(w.subs[i], frame, w.backlog)],
         droppedSlowSinks := w.droppedSlowSinks + if Overruns(w.subs[i], frame, w.backlog) then 1 else 0)
    case Leaving(i) => w.(subs := w.subs[i := w.subs[i].(live := false)])
  }

  function Initial(history: nat, backlog: nat): World {
    World(map[], map[], [], [], false, 0, 0, history, backlog)
  }

  /** Every action of a run was possible when it was taken. */
  ghost predicate Possible(start: World, actions: seq<Action>)
    decreases |actions|, 0
  {
    actions == [] ||
    var init := actions[..|actions| - 1];
    Possible(start, init) && Enabled(After(start, init), actions[|actions| - 1])
  }

  ghost function After(start: World, actions: seq<Action>): World
    requires Possible(start, actions)
    decreases |actions|, 1
  {
    if actions == [] then start
    else Next(After(start, actions[..|actions| - 1]), actions[|actions| - 1])
  }

  // ------------------------------------------------------------------------ //
  // The invariant                                                             //
  // ------------------------------------------------------------------------ //

  /** Frames that carry no property: the greeting, log messages, control frames. */
  predicate Neutral(f: Frame) {
    !f.Indi? || f.msg.Message?
  }

  ghost predicate SeedsKnown(heap: map<LiveVector, Vector>, s: Sub) {
    && (forall i :: 0 <= i < |s.seeds| ==> s.seeds[i] in heap)
    && (forall i, j :: 0 <= i < j < |s.seeds| ==> KeyOf(heap[s.seeds[i]]) != KeyOf(heap[s.seeds[j]]))
  }

  /** Everything sent ahead of the queue: what was sent, then what is still to be. */
  ghost function Opening(heap: map<LiveVector, Vector>, s: Sub): seq<Frame>
    requires SeedsKnown(heap, s)
  {
    s.opening + s.preamble + Definitions(heap, s.seeds) + s.seedFrames
  }

  ghost function Start(heap: map<LiveVector, Vector>, s: Sub, k: Key): Option<Vector>
    requires SeedsKnown(heap, s)
  {
    KeyFold(None, Opening(heap, s), k)
  }

  /** Every state since the last definition of `k`, the starting one included, is an
      earlier state of `v`. */
  predicate Below(o: Option<Vector>, frames: seq<Frame>, k: Key, v: Vector) {
    if frames == [] then o.Some? ==> Precedes(o.value, v)
    else
      var init, f := frames[..|frames| - 1], frames[|frames| - 1];
      if !About(f, k) then Below(o, init, k, v)
      else
        match f.msg
        case DefVector(d) => Precedes(d, v)
        case SetVector(s, _) => Precedes(s, v) && Below(o, init, k, v)
        case _ => true
  }

  ghost predicate Agrees(w: World, s: Sub, k: Key)
    requires Closed(w) && SeedsKnown(w.heap, s)
  {
    && KeyFold(Start(w.heap, s, k), s.traffic.offered, k) == Held(w, k)
    && (Held(w, k).Some? ==> Below(Start(w.heap, s, k), s.traffic.offered, k, Held(w, k).value))
  }

  /** The shape of what the pump has still to send ahead of the queue. */
  ghost predicate OpeningInv(s: Sub) {
    && (forall i :: 0 <= i < |s.preamble| ==> Neutral(s.preamble[i]))
    && (forall i :: 0 <= i < |s.seedFrames| ==> Neutral(s.seedFrames[i]))
    && (s.preamble != [] || s.seeds != [] || s.seedFrames != [] ==> s.traffic.popped == [])
  }

  /** The log messages and the images a browser was and will be sent. */
  ghost predicate AccountInv(w: World, s: Sub)
    requires SeedsKnown(w.heap, s)
  {
    && s.joined <= |w.log|
    && Notes(Opening(w.heap, s)) == Last(w.log[..s.joined], w.history)
    && Notes(Delivered(s.traffic)) == w.log[s.joined..]
    && Blobs(s.traffic.offered) == Blobs(Delivered(s.traffic)) + s.replacedBlobs
  }

  /** A browser is greeted first, and the last word it was or will be sent on the
      connection is how it stands. */
  ghost predicate ToldInv(w: World, s: Sub)
    requires SeedsKnown(w.heap, s)
  {
    && Opening(w.heap, s) != [] && Opening(w.heap, s)[0] == Hello
    && Status(Opening(w.heap, s) + Delivered(s.traffic)) == Some(w.connected)
  }

  ghost predicate SubInv(w: World, s: Sub)
    requires Closed(w)
  {
    && SeedsKnown(w.heap, s)
    && OpeningInv(s)
    && Faithful(s.traffic)
    && |s.traffic.queue.slots| <= w.backlog
    && (forall k :: Agrees(w, s, k))
    && AccountInv(w, s)
    && ToldInv(w, s)
  }

  /** A browser dropped for its backlog had just one frame too many queued. */
  ghost predicate DroppedFull(w: World, s: Sub) {
    !s.live && |s.traffic.queue.slots| == w.backlog + 1
  }

  function ReplacedTotal(subs: seq<Sub>): nat {
    if subs == [] then 0 else ReplacedTotal(subs[..|subs| - 1]) + subs[|subs| - 1].replacedBlobs
  }

  function DroppedTotal(subs: seq<Sub>): nat {
    if subs == [] then 0
    else DroppedTotal(subs[..|subs| - 1]) + if subs[|subs| - 1].droppedForBacklog then 1 else 0
  }

  ghost predicate Inv(w: World) {
    && Closed(w)
    && WellFiled(Upstream(w))
    && (forall i :: 0 <= i < |w.log| ==> IsNote(w.log[i]))
    && (forall i :: 0 <= i < |w.subs| && w.subs[i].live ==> SubInv(w, w.subs[i]))
    && (forall i :: 0 <= i < |w.subs| && w.subs[i].droppedForBacklog ==> DroppedFull(w, w.subs[i]))
    && w.coalescedBlobs == ReplacedTotal(w.subs)
    && w.droppedSlowSinks == DroppedTotal(w.subs)
  }
}
