/** Every reachable state of the bridge keeps each live browser exactly its pending
    frames away from the upstream cache. */
module FanoutSafety {
  import opened Wire
  import opened Merge
  import opened Store
  import opened Coalescing
  import opened Fanout

  // ------------------------------------------------------------------------ //
  // States below a vector                                                     //
  // ------------------------------------------------------------------------ //

  /** Merging one earlier state onto another gives an earlier state again. */
  lemma MergeStaysBelow(a: Vector, b: Vector, v: Vector, statePresent: bool)
    requires Precedes(a, v) && Precedes(b, v) && UniqueNames(v.elements)
    ensures Precedes(MergeVector(a, b, statePresent), v)
  {
    var merged := MergeVector(a, b, statePresent);
    forall i | 0 <= i < |a.elements| ensures ElementPrecedes(merged.elements[i], v.elements[i]) {
      assert ElementPrecedes(a.elements[i], v.elements[i]) && ElementPrecedes(b.elements[i], v.elements[i]);
      assert UniqueNames(b.elements) by {
        assert forall j :: 0 <= j < |b.elements| ==> ElementPrecedes(b.elements[j], v.elements[j]);
      }
      ByNameAt(b.elements, i);
    }
  }

  lemma BelowSnoc(o: Option<Vector>, frames: seq<Frame>, f: Frame, k: Key, v: Vector)
    requires Below(o, frames, k, v)
    requires About(f, k) && !f.msg.DelProperty? ==> Precedes(f.msg.vector, v)
    ensures Below(o, frames + [f], k, v)
  {
    assert (frames + [f])[..|frames|] == frames;
  }

  lemma {:induction false} BelowForward(o: Option<Vector>, frames: seq<Frame>, k: Key, v: Vector, later: Vector)
    requires Below(o, frames, k, v) && Precedes(v, later)
    ensures Below(o, frames, k, later)
  {
    if frames == [] {
      if o.Some? {
        PrecedesTransitive(o.value, v, later);
      }
    } else {
      var f := frames[|frames| - 1];
      if About(f, k) && !f.msg.DelProperty? {
        PrecedesTransitive(f.msg.vector, v, later);
      }
      if !About(f, k) || f.msg.SetVector? {
        BelowForward(o, frames[..|frames| - 1], k, v, later);
      }
    }
  }

  lemma {:induction false} BelowRebase(o: Option<Vector>, o': Option<Vector>, frames: seq<Frame>, k: Key, v: Vector)
    requires Below(o, frames, k, v) && (o'.Some? ==> Precedes(o'.value, v))
    ensures Below(o', frames, k, v)
  {
    if frames != [] {
      var f := frames[|frames| - 1];
      if !About(f, k) || f.msg.SetVector? {
        BelowRebase(o, o', frames[..|frames| - 1], k, v);
      }
    }
  }

  lemma {:induction false} BelowFold(o: Option<Vector>, frames: seq<Frame>, k: Key, v: Vector)
    requires Below(o, frames, k, v) && UniqueNames(v.elements) && KeyFold(o, frames, k).Some?
    ensures Precedes(KeyFold(o, frames, k).value, v)
  {
    if frames != [] {
      var init, f := frames[..|frames| - 1], frames[|frames| - 1];
      if !About(f, k) {
        BelowFold(o, init, k, v);
      } else if f.msg.SetVector? {
        BelowFold(o, init, k, v);
        MergeStaysBelow(KeyFold(o, init, k).value, f.msg.vector, v, f.msg.statePresent);
      }
    }
  }

  lemma {:induction false} BelowLast(o: Option<Vector>, frames: seq<Frame>, k: Key, v: Vector)
    requires Below(o, frames, k, v)
    ensures var last := LastAbout(frames, k);
            last.Some? && !last.value.msg.DelProperty? ==> Precedes(last.value.msg.vector, v)
  {
    if frames != [] && !About(frames[|frames| - 1], k) {
      BelowLast(o, frames[..|frames| - 1], k, v);
    }
  }

  lemma {:induction false} SamePresence(o: Option<Vector>, o': Option<Vector>, frames: seq<Frame>, k: Key)
    requires o.Some? == o'.Some?
    ensures KeyFold(o, frames, k).Some? == KeyFold(o', frames, k).Some?
  {
    if frames != [] {
      SamePresence(o, o', frames[..|frames| - 1], k);
    }
  }

  // ------------------------------------------------------------------------ //
  // Seeds                                                                     //
  // ------------------------------------------------------------------------ //

  lemma {:induction false} NeutralFold(o: Option<Vector>, frames: seq<Frame>, k: Key)
    requires forall i :: 0 <= i < |frames| ==> Neutral(frames[i])
    ensures KeyFold(o, frames, k) == o
  {
    UnrelatedFold(o, frames, k);
  }

  /** Where among the seeds property `k` is, if it is there. */
  function SeedOf(heap: map<LiveVector, Vector>, seeds: seq<LiveVector>, k: Key): (at: Option<nat>)
    requires forall i :: 0 <= i < |seeds| ==> seeds[i] in heap
    ensures at.Some? ==> at.value < |seeds| && KeyOf(heap[seeds[at.value]]) == k
    ensures at.None? ==> forall i :: 0 <= i < |seeds| ==> KeyOf(heap[seeds[i]]) != k
  {
    if seeds == [] then None
    else if KeyOf(heap[seeds[|seeds| - 1]]) == k then Some(|seeds| - 1)
    else SeedOf(heap, seeds[..|seeds| - 1], k)
  }

  lemma {:induction false} DefinitionsFold(o: Option<Vector>, heap: map<LiveVector, Vector>,
                                           seeds: seq<LiveVector>, k: Key)
    requires forall i :: 0 <= i < |seeds| ==> seeds[i] in heap
    ensures KeyFold(o, Definitions(heap, seeds), k) ==
            match SeedOf(heap, seeds, k) case Some(i) => Some(heap[seeds[i]]) case None => o
  {
    if seeds != [] {
      var init := seeds[..|seeds| - 1];
      DefinitionsFold(o, heap, init, k);
      assert Definitions(heap, seeds) == Definitions(heap, init) + [Indi(DefVector(heap[seeds[|seeds| - 1]]))];
      KeyFoldSnoc(o, Definitions(heap, init), Indi(DefVector(heap[seeds[|seeds| - 1]])), k);
    }
  }

  /** A browser starts from its seed's definition of a property, as it stands now. */
  lemma StartIs(heap: map<LiveVector, Vector>, s: Sub, k: Key)
    requires SeedsKnown(heap, s)
    requires forall i :: 0 <= i < |s.seedFrames| ==> Neutral(s.seedFrames[i])
    ensures Start(heap, s, k) ==
            match SeedOf(heap, s.seeds, k)
            case Some(i) => Some(heap[s.seeds[i]])
            case None => KeyFold(None, s.opening + s.preamble, k)
  {
    var head := s.opening + s.preamble;
    var defs := Definitions(heap, s.seeds);
    KeyFoldConcat(None, head + defs, s.seedFrames, k);
    KeyFoldConcat(None, head, defs, k);
    NeutralFold(KeyFold(None, head + defs, k), s.seedFrames, k);
    DefinitionsFold(KeyFold(None, head, k), heap, s.seeds, k);
  }

  lemma SeedAt(heap: map<LiveVector, Vector>, s: Sub, i: nat, k: Key)
    requires SeedsKnown(heap, s) && i < |s.seeds| && KeyOf(heap[s.seeds[i]]) == k
    ensures SeedOf(heap, s.seeds, k) == Some(i)
  {
  }

  lemma {:induction false} NotesOfDefinitions(heap: map<LiveVector, Vector>, seeds: seq<LiveVector>)
    requires forall i :: 0 <= i < |seeds| ==> seeds[i] in heap
    ensures Notes(Definitions(heap, seeds)) == []
  {
    if seeds != [] {
      NotesOfDefinitions(heap, seeds[..|seeds| - 1]);
      assert Definitions(heap, seeds)[..|seeds| - 1] == Definitions(heap, seeds[..|seeds| - 1]);
    }
  }

  /** The log messages ahead of the queue do not depend on what the seeds hold. */
  lemma NotesOfOpening(heap: map<LiveVector, Vector>, s: Sub)
    requires SeedsKnown(heap, s)
    ensures Notes(Opening(heap, s)) == Notes(s.opening + s.preamble) + Notes(s.seedFrames)
  {
    var defs := Definitions(heap, s.seeds);
    NotesConcat(s.opening + s.preamble + defs, s.seedFrames);
    NotesConcat(s.opening + s.preamble, defs);
    NotesOfDefinitions(heap, s.seeds);
  }

  // ------------------------------------------------------------------------ //
  // One message, one browser                                                  //
  // ------------------------------------------------------------------------ //

  /** Two heaps agree on what a browser's unsent seeds hold. */
  ghost predicate SameSeeds(heap: map<LiveVector, Vector>, heap': map<LiveVector, Vector>, s: Sub) {
    forall i :: 0 <= i < |s.seeds| ==>
      s.seeds[i] in heap && s.seeds[i] in heap' && heap'[s.seeds[i]] == heap[s.seeds[i]]
  }

  lemma SameSeedsSameOpening(heap: map<LiveVector, Vector>, heap': map<LiveVector, Vector>, s: Sub)
    requires SeedsKnown(heap, s) && SameSeeds(heap, heap', s)
    ensures SeedsKnown(heap', s) && Opening(heap', s) == Opening(heap, s)
  {
    assert Definitions(heap', s.seeds) == Definitions(heap, s.seeds);
  }

  ghost function Receiver(s: Sub, f: Frame): Sub {
    s.(traffic := Offer(s.traffic, f))
  }

  /** A frame that is not a `set` keeps agreement when the cache made the same step. */
  lemma AgreesAfterFrame(w: World, w': World, s: Sub, f: Frame, k: Key)
    requires Closed(w) && Closed(w') && SeedsKnown(w.heap, s) && SameSeeds(w.heap, w'.heap, s)
    requires SeedsKnown(w'.heap, s)
    requires Agrees(w, s, k) && Held(w', k) == KeyStep(Held(w, k), f, k)
    requires !(f.Indi? && f.msg.SetVector?)
    ensures Agrees(w', Receiver(s, f), k)
  {
    SameSeedsSameOpening(w.heap, w'.heap, s);
    assert Opening(w'.heap, Receiver(s, f)) == Opening(w.heap, s);
    var o := Start(w.heap, s, k);
    KeyFoldSnoc(o, s.traffic.offered, f, k);
    if Held(w', k).Some? {
      var v := Held(w', k).value;
      if About(f, k) {
        PrecedesReflexive(v);
        assert (s.traffic.offered + [f])[..|s.traffic.offered|] == s.traffic.offered;
      } else {
        BelowSnoc(o, s.traffic.offered, f, k, v);
      }
    }
  }

  /** Writing through a cached object shows in a browser's start only where that very
      object is one of its unsent seeds. */
  lemma StartAfterSet(w: World, heap': map<LiveVector, Vector>, s: Sub, ref: LiveVector, v': Vector, k: Key)
    requires Closed(w) && SubInv(w, s) && ref in w.heap && heap' == w.heap[ref := v']
    requires KeyOf(v') == KeyOf(w.heap[ref]) && SeedsKnown(heap', s)
    ensures || Start(heap', s, k) == Start(w.heap, s, k)
            || (k == KeyOf(v') && Start(w.heap, s, k).Some? && Start(heap', s, k) == Some(v'))
  {
    StartIs(w.heap, s, k);
    StartIs(heap', s, k);
    var at := SeedOf(w.heap, s.seeds, k);
    if at.Some? {
      SeedAt(heap', s, at.value, k);
    }
  }

  /** The full state that ends a list of earlier states absorbs them all. */
  lemma SetAbsorbs(o: Option<Vector>, o': Option<Vector>, frames: seq<Frame>, k: Key, v: Vector, v': Vector)
    requires Below(o, frames, k, v) && KeyFold(o, frames, k) == Some(v)
    requires Precedes(v, v') && UniqueNames(v'.elements) && KeyOf(v') == k
    requires o' == o || (o.Some? && o' == Some(v'))
    ensures KeyFold(o', frames + [Indi(SetVector(v', true))], k) == Some(v')
    ensures Below(o', frames + [Indi(SetVector(v', true))], k, v')
  {
    BelowForward(o, frames, k, v, v');
    PrecedesReflexive(v');
    if o' != o {
      BelowRebase(o, o', frames, k, v');
    }
    SamePresence(o, o', frames, k);
    BelowFold(o', frames, k, v');
    LaterStateAbsorbs(KeyFold(o', frames, k).value, v');
    KeyFoldSnoc(o', frames, Indi(SetVector(v', true)), k);
    BelowSnoc(o', frames, Indi(SetVector(v', true)), k, v');
  }

  /** A `set` moves a cached object on; the browsers whose unsent seeds refer to it will
      see the new value early, and the full state relayed to all of them absorbs that. */
  lemma AgreesAfterSet(w: World, w': World, s: Sub, ref: LiveVector, v': Vector, k: Key)
    requires Closed(w) && Closed(w') && SubInv(w, s) && Agrees(w, s, k)
    requires ref in w.heap && w'.heap == w.heap[ref := v'] && SeedsKnown(w'.heap, s)
    requires Precedes(w.heap[ref], v') && UniqueNames(v'.elements)
    requires Held(w, KeyOf(v')) == Some(w.heap[ref])
    requires Held(w', k) == if k == KeyOf(v') then Some(v') else Held(w, k)
    ensures Agrees(w', Receiver(s, Indi(SetVector(v', true))), k)
  {
    var f := Indi(SetVector(v', true));
    var o, o' := Start(w.heap, s, k), Start(w'.heap, s, k);
    assert Opening(w'.heap, Receiver(s, f)) == Opening(w'.heap, s);
    StartAfterSet(w, w'.heap, s, ref, v', k);
    if k == KeyOf(v') {
      SetAbsorbs(o, o', s.traffic.offered, k, w.heap[ref], v');
    } else {
      KeyFoldSnoc(o, s.traffic.offered, f, k);
      if Held(w, k).Some? {
        BelowSnoc(o, s.traffic.offered, f, k, Held(w, k).value);
      }
    }
  }

  lemma AccountsAfterFrame(w: World, w': World, s: Sub, f: Frame)
    requires SeedsKnown(w.heap, s) && SeedsKnown(w'.heap, s) && Faithful(s.traffic) && AccountInv(w, s)
    requires w'.history == w.history && w'.log == w.log + Notes([f])
    requires FullSet(f) && Follows(s.traffic.offered, f) && s.live
    ensures SeedsKnown(w'.heap, Receive(s, f, w.backlog)) && AccountInv(w', Receive(s, f, w.backlog))
  {
    var s' := Receive(s, f, w.backlog);
    AccountFields(s, f, w.backlog);
    OfferAccounts(s.traffic, f);
    NotesOfOpening(w.heap, s);
    NotesOfOpening(w'.heap, s);
    OpeningSame(w'.heap, s, s');
    LogMore(w.log, w'.log, Notes([f]), s.joined);
    BlobsConcat(s.traffic.offered, [f]);
    hide Opening, Definitions, Notes, Blobs, Offer, Overruns, IsNote, Delivered, Receive, SeedsKnown, Skips, Faithful, Last,
         FullSet, Coalescing.Follows;
  }

  lemma LogMore(log: seq<Frame>, more: seq<Frame>, notes: seq<Frame>, joined: nat)
    requires joined <= |log| && more == log + notes
    ensures joined <= |more| && more[..joined] == log[..joined] && more[joined..] == log[joined..] + notes
  {
  }

  lemma OpeningSame(heap: map<LiveVector, Vector>, s: Sub, s': Sub)
    requires SeedsKnown(heap, s) && s'.seeds == s.seeds && s'.opening == s.opening && s'.preamble == s.preamble
    requires s'.seedFrames == s.seedFrames
    ensures SeedsKnown(heap, s') && Opening(heap, s') == Opening(heap, s)
  {
  }

  /** What a frame leaves of a live browser but for its traffic. */
  lemma AccountFields(s: Sub, f: Frame, backlog: nat)
    requires s.live
    ensures var s' := Receive(s, f, backlog);
            && s'.joined == s.joined && s'.traffic == Offer(s.traffic, f) && s'.seeds == s.seeds
            && s'.opening == s.opening && s'.preamble == s.preamble && s'.seedFrames == s.seedFrames
            && s'.replacedBlobs == s.replacedBlobs + (if Skips(s, f) then 1 else 0)
            && s'.traffic.offered == s.traffic.offered + [f] && s'.traffic.popped == s.traffic.popped
  {
  }

  lemma {:induction false} StatusOfDefinitions(heap: map<LiveVector, Vector>, seeds: seq<LiveVector>)
    requires forall i :: 0 <= i < |seeds| ==> seeds[i] in heap
    ensures Status(Definitions(heap, seeds)) == None
  {
    if seeds != [] {
      StatusOfDefinitions(heap, seeds[..|seeds| - 1]);
      assert Definitions(heap, seeds)[..|seeds| - 1] == Definitions(heap, seeds[..|seeds| - 1]);
    }
  }

  /** The last word on the connection ahead of the queue does not depend on what the seeds hold. */
  lemma StatusOfOpening(heap: map<LiveVector, Vector>, s: Sub)
    requires SeedsKnown(heap, s)
    ensures Status(Opening(heap, s))
            == if Status(s.seedFrames).Some? then Status(s.seedFrames) else Status(s.opening + s.preamble)
  {
    hide Status;
    var defs := Definitions(heap, s.seeds);
    StatusConcat(s.opening + s.preamble + defs, s.seedFrames);
    StatusConcat(s.opening + s.preamble, defs);
    StatusOfDefinitions(heap, s.seeds);
  }

  /** A definition is no greeting: who is greeted first does not depend on the seeds. */
  lemma GreetingStays(heap: map<LiveVector, Vector>, heap': map<LiveVector, Vector>, s: Sub)
    requires SeedsKnown(heap, s) && SeedsKnown(heap', s)
    requires Opening(heap, s) != [] && Opening(heap, s)[0] == Hello
    ensures Opening(heap', s) != [] && Opening(heap', s)[0] == Hello
  {
    hide KeyOf;
    assert s.opening + s.preamble == [] ==> s.seeds == [];
  }

  /** A frame to one browser, the connection standing as the frame says if it says so. */
  lemma ToldAfterFrame(w: World, w': World, s: Sub, f: Frame)
    requires SeedsKnown(w.heap, s) && SeedsKnown(w'.heap, s) && Faithful(s.traffic) && ToldInv(w, s)
    requires FullSet(f) && Follows(s.traffic.offered, f) && s.live
    requires w'.connected == if f.ConnectionFrame? then f.connected else w.connected
    ensures SeedsKnown(w'.heap, Receive(s, f, w.backlog)) && ToldInv(w', Receive(s, f, w.backlog))
  {
    AccountFields(s, f, w.backlog);
    OfferTells(s.traffic, f);
    hide Opening, Status, Offer, Overruns, Delivered, Receive, SeedsKnown, Skips, Faithful, FullSet, Coalescing.Follows;
    var s' := Receive(s, f, w.backlog);
    StatusOfOpening(w.heap, s);
    StatusOfOpening(w'.heap, s);
    GreetingStays(w.heap, w'.heap, s);
    OpeningSame(w'.heap, s, s');
    StatusConcat(Opening(w.heap, s), Delivered(s.traffic));
    StatusConcat(Opening(w'.heap, s), Delivered(s'.traffic));
  }

  lemma AgreesAlike(w: World, s: Sub, s': Sub, k: Key)
    requires Closed(w) && SeedsKnown(w.heap, s) && SeedsKnown(w.heap, s') && Opening(w.heap, s') == Opening(w.heap, s)
    requires Agrees(w, s, k) && s'.traffic.offered == s.traffic.offered
    ensures Agrees(w, s', k)
  {
  }

  /** What one live browser needs of a step for its invariant to survive a frame. */
  lemma ReceiverKeepsInv(w: World, w': World, s: Sub, f: Frame)
    requires Closed(w) && Closed(w') && SubInv(w, s) && SeedsKnown(w'.heap, s)
    requires w'.history == w.history && w'.backlog == w.backlog && w'.log == w.log + Notes([f])
    requires w'.connected == if f.ConnectionFrame? then f.connected else w.connected
    requires FullSet(f) && Follows(s.traffic.offered, f)
    requires forall k :: Agrees(w', Receiver(s, f), k)
    requires s.live && !Overruns(s, f, w.backlog)
    ensures SubInv(w', Receive(s, f, w.backlog))
  {
    hide Opening, Notes, Blobs, Status, Offer, Delivered, SeedsKnown, Skips, Faithful, Agrees, AccountInv, ToldInv,
         FullSet, Coalescing.Follows, Held, Known, Closed;
    var s' := Receive(s, f, w.backlog);
    AccountFields(s, f, w.backlog);
    OfferFaithful(s.traffic, f);
    AccountsAfterFrame(w, w', s, f);
    ToldAfterFrame(w, w', s, f);
    OpeningSame(w'.heap, s, s');
    OpeningSame(w'.heap, s, Receiver(s, f));
    forall k ensures Agrees(w', s', k) {
      AgreesAlike(w', Receiver(s, f), s', k);
    }
  }

  // ------------------------------------------------------------------------ //
  // The upstream cache                                                        //
  // ------------------------------------------------------------------------ //

  lemma ReadPut(heap: map<LiveVector, Vector>, cache: Nested<LiveVector>, ref: LiveVector, v: Vector)
    requires Known(heap, cache) && ref !in heap
    ensures Known(heap[ref := v], Put(cache, v.device, v.name, ref))
    ensures Read(heap[ref := v], Put(cache, v.device, v.name, ref)) == Put(Read(heap, cache), v.device, v.name, v)
  {
    hide Row, RowKnown;
    var row := if v.device in cache then cache[v.device] else map[];
    NoRow(heap);
    RowPut(heap, row, v.name, ref, v);
    forall d | d in cache
      ensures RowKnown(heap[ref := v], cache[d]) && Row(heap[ref := v], cache[d]) == Row(heap, cache[d])
    {
      RowWiden(heap, cache[d], ref, v);
    }
  }

  lemma NoRow(heap: map<LiveVector, Vector>)
    ensures RowKnown(heap, map[]) && Row(heap, map[]) == map[]
  {
  }

  lemma RowWiden(heap: map<LiveVector, Vector>, row: map<string, LiveVector>, ref: LiveVector, v: Vector)
    requires RowKnown(heap, row) && ref !in heap
    ensures RowKnown(heap[ref := v], row) && Row(heap[ref := v], row) == Row(heap, row)
  {
  }

  lemma ReadWrite(heap: map<LiveVector, Vector>, cache: Nested<LiveVector>, device: string, name: string, v: Vector)
    requires Known(heap, cache) && Has(cache, device, name) && WellFiled(Read(heap, cache))
    ensures Known(heap[cache[device][name] := v], cache)
    ensures Read(heap[cache[device][name] := v], cache) == Put(Read(heap, cache), device, name, v)
  {
    var ref := cache[device][name];
    var c := Read(heap, cache);
    assert Has(c, device, name) && c[device][name] == heap[ref];
    forall d, n | Has(cache, d, n) && cache[d][n] == ref ensures d == device && n == name {
      assert Has(c, d, n) && c[d][n] == heap[ref];
    }
    forall d | d in cache ensures Row(heap[ref := v], cache[d]) == Put(c, device, name, v)[d] {
      assert forall n | n in cache[d] :: Has(cache, d, n);
    }
  }

  lemma ReadDrop(heap: map<LiveVector, Vector>, cache: Nested<LiveVector>, device: string, name: Option<string>)
    requires Known(heap, cache)
    ensures Known(heap, Drop(cache, device, name))
    ensures Read(heap, Drop(cache, device, name)) == Drop(Read(heap, cache), device, name)
  {
    hide Known, RowKnown, Read, Row;
    ReadKeys(heap, cache);
    if device in cache {
      if name.Some? {
        KnownRow(heap, cache, device);
        RowDrop(heap, cache[device], name.value);
        ReadReplaceRow(heap, cache, device, cache[device] - {name.value});
        ReadRow(heap, cache, device);
      } else {
        ReadWithout(heap, cache, device);
      }
    }
  }

  lemma ReadKeys(heap: map<LiveVector, Vector>, cache: Nested<LiveVector>)
    requires Known(heap, cache)
    ensures Read(heap, cache).Keys == cache.Keys
  {
  }

  lemma ReadWithout(heap: map<LiveVector, Vector>, cache: Nested<LiveVector>, device: string)
    requires Known(heap, cache)
    ensures Known(heap, cache - {device}) && Read(heap, cache - {device}) == Read(heap, cache) - {device}
  {
    hide Row, RowKnown;
  }

  lemma KnownRow(heap: map<LiveVector, Vector>, cache: Nested<LiveVector>, device: string)
    requires Known(heap, cache) && device in cache
    ensures RowKnown(heap, cache[device]) && forall name :: RowKnown(heap, cache[device] - {name})
  {
  }

  lemma ReadRow(heap: map<LiveVector, Vector>, cache: Nested<LiveVector>, device: string)
    requires Known(heap, cache) && device in cache
    ensures RowKnown(heap, cache[device]) && device in Read(heap, cache) && Read(heap, cache)[device] == Row(heap, cache[device])
  {
  }

  lemma ReadReplaceRow(heap: map<LiveVector, Vector>, cache: Nested<LiveVector>, device: string,
                       row: map<string, LiveVector>)
    requires Known(heap, cache) && RowKnown(heap, row)
    ensures Known(heap, cache[device := row])
    ensures Read(heap, cache[device := row]) == Read(heap, cache)[device := Row(heap, row)]
  {
  }

  lemma RowDrop(heap: map<LiveVector, Vector>, row: map<string, LiveVector>, name: string)
    requires RowKnown(heap, row)
    ensures Row(heap, row - {name}) == Row(heap, row) - {name}
  {
  }

  lemma RowPut(heap: map<LiveVector, Vector>, row: map<string, LiveVector>, name: string, ref: LiveVector, v: Vector)
    requires RowKnown(heap, row)
    requires ref !in heap
    ensures RowKnown(heap[ref := v], row[name := ref])
    ensures Row(heap[ref := v], row[name := ref]) == Row(heap, row)[name := v]
  {
  }

  /** The world's cache makes the very step the stores make. */
  lemma UpstreamStep(w: World, msg: IndiMessage, ref: LiveVector)
    requires Inv(w) && Admissible(Upstream(w), msg) && (msg.DefVector? ==> ref !in w.heap)
    ensures Closed(Stored(w, msg, ref)) && Upstream(Stored(w, msg, ref)) == Applied(Upstream(w), msg)
    ensures WellFiled(Upstream(Stored(w, msg, ref)))
  {
    AppliedWellFiled(Upstream(w), msg);
    match msg {
      case DefVector(v) =>
        ReadPut(w.heap, w.cache, ref, v);
      case SetVector(v, statePresent) =>
        if Has(w.cache, v.device, v.name) {
          ReadWrite(w.heap, w.cache, v.device, v.name,
                    MergeVector(w.heap[w.cache[v.device][v.name]], v, statePresent));
        }
      case DelProperty(device, name, _, _) =>
        ReadDrop(w.heap, w.cache, device, name);
      case _ =>
    }
  }

  // ------------------------------------------------------------------------ //
  // Every step keeps the invariant                                            //
  // ------------------------------------------------------------------------ //

  /** A browser's invariant reads the upstream side of the world alone. */
  lemma SameUpstreamSameInv(w: World, w': World, s: Sub)
    requires Closed(w) && SubInv(w, s)
    requires w'.heap == w.heap && w'.cache == w.cache && w'.log == w.log
    requires w'.history == w.history && w'.backlog == w.backlog && w'.connected == w.connected
    ensures Closed(w') && SubInv(w', s)
  {
    forall k ensures Agrees(w', s, k) {
      assert Agrees(w, s, k);
    }
  }

  lemma HeldStep(w: World, msg: IndiMessage, ref: LiveVector, k: Key)
    requires Inv(w) && Admissible(Upstream(w), msg) && (msg.DefVector? ==> ref !in w.heap)
    ensures Closed(Stored(w, msg, ref))
    ensures Held(Stored(w, msg, ref), k) == KeyApplied(Held(w, k), msg, k)
  {
    UpstreamStep(w, msg, ref);
    AppliedAt(Upstream(w), msg, k);
  }

  /** A definition, a deletion or a log message relayed to one browser. */
  lemma RelayOther(w: World, w': World, s: Sub, f: Frame)
    requires Closed(w) && Closed(w') && SubInv(w, s) && s.live && SameSeeds(w.heap, w'.heap, s)
    requires w'.history == w.history && w'.backlog == w.backlog && w'.log == w.log + Notes([f])
    requires w'.connected == if f.ConnectionFrame? then f.connected else w.connected
    requires f.Indi? ==> !f.msg.SetVector?
    requires forall k :: Held(w', k) == KeyStep(Held(w, k), f, k)
    requires !Overruns(s, f, w.backlog)
    ensures SubInv(w', Receive(s, f, w.backlog))
  {
    SameSeedsSameOpening(w.heap, w'.heap, s);
    forall k ensures Agrees(w', Receiver(s, f), k) {
      assert Agrees(w, s, k);
      AgreesAfterFrame(w, w', s, f, k);
    }
    ReceiverKeepsInv(w, w', s, f);
  }

  /** The state relayed for an update follows whatever was last relayed of it. */
  lemma UpdateFollows(w: World, s: Sub, was: Vector, v': Vector)
    requires Closed(w) && SubInv(w, s) && Held(w, KeyOf(v')) == Some(was) && Precedes(was, v')
    ensures Follows(s.traffic.offered, Indi(SetVector(v', true)))
  {
    var k := KeyOf(v');
    assert Agrees(w, s, k);
    BelowLast(Start(w.heap, s, k), s.traffic.offered, k, was);
    var last := LastAbout(s.traffic.offered, k);
    if last.Some? && last.value.msg.SetVector? {
      PrecedesTransitive(last.value.msg.vector, was, v');
    }
  }

  lemma SeedsStayKnown(heap: map<LiveVector, Vector>, s: Sub, ref: LiveVector, v': Vector)
    requires SeedsKnown(heap, s) && ref in heap && KeyOf(v') == KeyOf(heap[ref])
    ensures SeedsKnown(heap[ref := v'], s)
  {
  }

  /** An update relayed to one browser as the full state it left the cache in. */
  lemma RelaySet(w: World, w': World, s: Sub, ref: LiveVector, v': Vector)
    requires Closed(w) && Closed(w') && SubInv(w, s) && s.live
    requires ref in w.heap && w' == w.(heap := w.heap[ref := v'])
    requires Precedes(w.heap[ref], v') && UniqueNames(v'.elements)
    requires Held(w, KeyOf(v')) == Some(w.heap[ref])
    requires forall k :: Held(w', k) == if k == KeyOf(v') then Some(v') else Held(w, k)
    requires !Overruns(s, Indi(SetVector(v', true)), w.backlog)
    ensures SubInv(w', Receive(s, Indi(SetVector(v', true)), w.backlog))
  {
    SeedsStayKnown(w.heap, s, ref, v');
    RelayedAgrees(w, w', s, ref, v');
    hide SubInv, Receive, Overruns, Coalescing.Follows, Known, Closed, Notes, SeedsKnown, Agrees, Held, Receiver,
         UniqueNames, Precedes, KeyOf;
    UpdateFollows(w, s, w.heap[ref], v');
    SetIsNoNote(w.log, v');
    ReceiverKeepsInv(w, w', s, Indi(SetVector(v', true)));
  }

  lemma SetIsNoNote(log: seq<Frame>, v: Vector)
    ensures log + Notes([Indi(SetVector(v, true))]) == log
  {
    NotesOne(Indi(SetVector(v, true)));
  }

  lemma RelayedAgrees(w: World, w': World, s: Sub, ref: LiveVector, v': Vector)
    requires Closed(w) && Closed(w') && SubInv(w, s) && SeedsKnown(w'.heap, s)
    requires ref in w.heap && w' == w.(heap := w.heap[ref := v'])
    requires Precedes(w.heap[ref], v') && UniqueNames(v'.elements)
    requires Held(w, KeyOf(v')) == Some(w.heap[ref])
    requires forall k :: Held(w', k) == if k == KeyOf(v') then Some(v') else Held(w, k)
    ensures forall k :: Agrees(w', Receiver(s, Indi(SetVector(v', true))), k)
  {
    hide AccountInv, ToldInv, Faithful, OpeningInv, Known, Closed, Agrees, Held, UniqueNames, KeyOf, Precedes;
    forall k ensures Agrees(w', Receiver(s, Indi(SetVector(v', true))), k) {
      AgreesAfterSet(w, w', s, ref, v', k);
    }
  }

  /** What a known `set` does to the world, as one write through the filed object. */
  lemma UpdateWrites(w: World, msg: IndiMessage, ref: LiveVector) returns (cur: LiveVector, v': Vector)
    requires Inv(w) && Admissible(Upstream(w), msg) && msg.SetVector? && Relayed(w, msg).Some?
    ensures cur in w.heap && Stored(w, msg, ref) == w.(heap := w.heap[cur := v'])
    ensures Precedes(w.heap[cur], v') && UniqueNames(v'.elements) && KeyOf(v') == KeyOf(msg.vector)
    ensures Held(w, KeyOf(v')) == Some(w.heap[cur])
    ensures Relayed(w, msg) == Some(Indi(SetVector(v', true)))
  {
    var v := msg.vector;
    ReadHas(w.heap, w.cache, v.device, v.name);
    cur := w.cache[v.device][v.name];
    v' := MergeVector(w.heap[cur], v, msg.statePresent);
    MergeMovesForward(w.heap[cur], v, msg.statePresent);
    MergeKeepsNames(w.heap[cur], v, msg.statePresent);
  }

  lemma ReadHas(heap: map<LiveVector, Vector>, cache: Nested<LiveVector>, device: string, name: string)
    requires Known(heap, cache)
    ensures Has(Read(heap, cache), device, name) <==> Has(cache, device, name)
    ensures Has(cache, device, name) ==> Read(heap, cache)[device][name] == heap[cache[device][name]]
  {
  }

  lemma DropNothing<V>(m: Nested<V>, device: string, name: Option<string>)
    requires device in m ==> name.Some? && name.value !in m[device]
    ensures Drop(m, device, name) == m
  {
    if device in m {
      assert m[device] - {name.value} == m[device];
    }
  }

  /** A message that changes nothing leaves the world as it was. */
  lemma NothingRelayed(w: World, msg: IndiMessage, ref: LiveVector)
    requires Closed(w) && Relayed(w, msg).None?
    ensures Stored(w, msg, ref) == w
  {
    match msg {
      case SetVector(v, _) =>
        ReadHas(w.heap, w.cache, v.device, v.name);
      case DelProperty(device, name, _, _) =>
        if name.Some? {
          ReadHas(w.heap, w.cache, device, name.value);
        }
        DropNothing(w.cache, device, name);
      case _ =>
    }
  }

  /** What a message is relayed as: an update as the full state it leaves its property in, and
      a definition, a deletion of something and a log message as they came. Nothing else is. */
  lemma RelayedIs(w: World, msg: IndiMessage)
    requires Inv(w)
    ensures Relayed(w, msg)
            == match msg
               case SetVector(v, statePresent) =>
                 if Held(w, KeyOf(v)).Some?
                 then Some(Indi(SetVector(MergeVector(Held(w, KeyOf(v)).value, v, statePresent), true))) else None
               case DelProperty(_, _, _, _) => if Applied(Upstream(w), msg) != Upstream(w) then Some(Indi(msg)) else None
               case DefVector(_) => Some(Indi(msg))
               case Message(_, _, _) => Some(Indi(msg))
               case _ => None
  {
    hide MergeVector, SubInv, ReplacedTotal, DroppedTotal, DroppedFull, Drop, Put, Read;
    EventReports(Upstream(w), msg);
  }

  lemma HeardKeepsSub(w: World, msg: IndiMessage, ref: LiveVector, s: Sub)
    requires Inv(w) && Enabled(w, Receiving(msg, ref)) && Relayed(w, msg).Some?
    requires SubInv(w, s) && s.live && !Overruns(s, Relayed(w, msg).value, w.backlog)
    ensures Closed(Heard(w, msg, ref))
    ensures SubInv(Heard(w, msg, ref), Receive(s, Relayed(w, msg).value, w.backlog))
  {
    hide SubInv, DroppedFull, Receive, Overruns, ReplacedTotal, DroppedTotal, ReceiveAll, SkipCount, OverrunCount,
         Precedes;
    var f := Relayed(w, msg).value;
    var stored := Stored(w, msg, ref);
    UpstreamStep(w, msg, ref);
    if msg.SetVector? {
      var cur, v' := UpdateWrites(w, msg, ref);
      forall k ensures Held(stored, k) == if k == KeyOf(v') then Some(v') else Held(w, k) {
        HeldStep(w, msg, ref, k);
      }
      RelaySet(w, stored, s, cur, v');
      SameUpstreamSameInv(stored, Heard(w, msg, ref), Receive(s, f, w.backlog));
    } else {
      HeardOtherKeepsSub(w, msg, ref, s);
    }
  }

  lemma SeedsUntouched(w: World, msg: IndiMessage, ref: LiveVector, s: Sub)
    requires Closed(w) && SeedsKnown(w.heap, s) && !msg.SetVector? && (msg.DefVector? ==> ref !in w.heap)
    ensures SameSeeds(w.heap, Stored(w, msg, ref).heap, s)
    ensures var w' := Stored(w, msg, ref);
            && w'.log == w.log && w'.history == w.history && w'.backlog == w.backlog
            && w'.connected == w.connected
  {
  }

  lemma HeardOtherKeepsSub(w: World, msg: IndiMessage, ref: LiveVector, s: Sub)
    requires Inv(w) && Enabled(w, Receiving(msg, ref)) && Relayed(w, msg) == Some(Indi(msg))
    requires SubInv(w, s) && s.live && !Overruns(s, Indi(msg), w.backlog) && !msg.SetVector?
    ensures Closed(Heard(w, msg, ref)) && SubInv(Heard(w, msg, ref), Receive(s, Indi(msg), w.backlog))
  {
    var f := Indi(msg);
    UpstreamStep(w, msg, ref);
    SeedsUntouched(w, msg, ref, s);
    var logged := Stored(w, msg, ref).(log := w.log + Notes([f]));
    assert forall k :: Held(logged, k) == KeyStep(Held(w, k), f, k) by {
      forall k ensures Held(logged, k) == KeyStep(Held(w, k), f, k) {
        HeldStep(w, msg, ref, k);
      }
    }
    RelayOther(w, logged, s, f);
    HeardOther(w, msg, ref);
    SameUpstreamSameInv(logged, Broadcast(logged, f), Receive(s, f, w.backlog));
  }

  lemma HeardOther(w: World, msg: IndiMessage, ref: LiveVector)
    requires Closed(w) && Relayed(w, msg) == Some(Indi(msg)) && !msg.SetVector?
    ensures Heard(w, msg, ref) == Broadcast(Stored(w, msg, ref).(log := w.log + Notes([Indi(msg)])), Indi(msg))
  {
    NotesOne(Indi(msg));
    var stored := Stored(w, msg, ref);
    assert !IsNote(Indi(msg)) ==> stored.(log := w.log + []) == stored;
  }

  lemma {:induction false} ReceiveAllTotals(subs: seq<Sub>, f: Frame, backlog: nat)
    requires forall i :: 0 <= i < |subs| && subs[i].live ==> !subs[i].droppedForBacklog
    ensures ReplacedTotal(ReceiveAll(subs, f, backlog)) == ReplacedTotal(subs) + SkipCount(subs, f)
    ensures DroppedTotal(ReceiveAll(subs, f, backlog)) == DroppedTotal(subs) + OverrunCount(subs, f, backlog)
  {
    if subs != [] {
      var init := subs[..|subs| - 1];
      ReceiveAllTotals(init, f, backlog);
      assert ReceiveAll(subs, f, backlog)[..|subs| - 1] == ReceiveAll(init, f, backlog);
    }
  }

  lemma {:induction false} TotalsUpdate(subs: seq<Sub>, i: nat, s: Sub)
    requires i < |subs|
    ensures ReplacedTotal(subs[i := s]) == ReplacedTotal(subs) - subs[i].replacedBlobs + s.replacedBlobs
    ensures DroppedTotal(subs[i := s])
            == DroppedTotal(subs) - (if subs[i].droppedForBacklog then 1 else 0)
               + (if s.droppedForBacklog then 1 else 0)
  {
    var last := |subs| - 1;
    if i == last {
      assert subs[i := s][..last] == subs[..last];
    } else {
      TotalsUpdate(subs[..last], i, s);
      assert subs[i := s][..last] == subs[..last][i := s];
    }
  }

  /** A frame about no property of the cache, to every browser. */
  lemma ConnectingKeepsSub(w: World, up: bool, s: Sub)
    requires Inv(w) && SubInv(w, s) && s.live && !Overruns(s, ConnectionFrame(up), w.backlog)
    ensures Closed(Next(w, Connecting(up)))
    ensures SubInv(Next(w, Connecting(up)), Receive(s, ConnectionFrame(up), w.backlog))
  {
    var said := w.(connected := up);
    ControlKeepsSub(w, said, s, ConnectionFrame(up));
    SameUpstreamSameInv(said, Next(w, Connecting(up)), Receive(s, ConnectionFrame(up), w.backlog));
  }

  lemma ControlKeepsSub(w: World, w': World, s: Sub, f: Frame)
    requires Closed(w) && SubInv(w, s) && s.live && !f.Indi? && !Overruns(s, f, w.backlog)
    requires w' == w.(connected := if f.ConnectionFrame? then f.connected else w.connected)
    ensures Closed(w') && SubInv(w', Receive(s, f, w.backlog))
  {
    NotesOne(f);
    RelayOther(w, w', s, f);
  }

  lemma OpeningMoves(heap: map<LiveVector, Vector>, s: Sub)
    requires SeedsKnown(heap, s) && (s.preamble != [] || s.seeds != [] || s.seedFrames != [])
    ensures SeedsKnown(heap, Pumped(heap, s)) && Opening(heap, Pumped(heap, s)) == Opening(heap, s)
  {
    hide KeyOf;
    var sent := s.opening + [NextFrame(heap, s)];
    if s.preamble != [] {
      assert sent + s.preamble[1..] == s.opening + s.preamble;
    } else if s.seeds != [] {
      assert Definitions(heap, s.seeds) == [Indi(DefVector(heap[s.seeds[0]]))] + Definitions(heap, s.seeds[1..]);
      assert sent + s.preamble + Definitions(heap, s.seeds[1..]) == s.opening + s.preamble + Definitions(heap, s.seeds);
    } else {
      assert sent + s.preamble + Definitions(heap, s.seeds) + s.seedFrames[1..]
             == s.opening + s.preamble + Definitions(heap, s.seeds) + s.seedFrames;
    }
  }

  /** The pump moves the boundary between sent and pending, and nothing else. */
  lemma PumpMovesBoundary(w: World, s: Sub)
    requires SeedsKnown(w.heap, s) && Faithful(s.traffic) && HasPending(s)
    ensures SeedsKnown(w.heap, Pumped(w.heap, s))
    ensures Opening(w.heap, Pumped(w.heap, s)) == Opening(w.heap, s)
    ensures Delivered(Pumped(w.heap, s).traffic) == Delivered(s.traffic)
    ensures Pumped(w.heap, s).traffic.offered == s.traffic.offered
  {
    hide Faithful, Delivered, KeyOf, Definitions;
    if s.preamble == [] && s.seeds == [] && s.seedFrames == [] {
      PopFaithful(s.traffic);
    } else {
      OpeningMoves(w.heap, s);
    }
  }

  /** A browser's invariant is about its opening as a whole and what it was offered. */
  lemma SameTrafficSameInv(w: World, s: Sub, s': Sub)
    requires Closed(w) && SubInv(w, s) && SeedsKnown(w.heap, s') && Opening(w.heap, s') == Opening(w.heap, s)
    requires OpeningInv(s') && Faithful(s'.traffic) && |s'.traffic.queue.slots| <= |s.traffic.queue.slots|
    requires s'.traffic.offered == s.traffic.offered && Delivered(s'.traffic) == Delivered(s.traffic)
    requires s'.joined == s.joined && s'.replacedBlobs == s.replacedBlobs
    ensures SubInv(w, s')
  {
    forall k ensures Agrees(w, s', k) {
      assert Agrees(w, s, k);
    }
  }

  lemma PumpKeepsSub(w: World, s: Sub)
    requires Closed(w) && SubInv(w, s) && HasPending(s)
    ensures SubInv(w, Pumped(w.heap, s))
  {
    PumpMovesBoundary(w, s);
    if s.preamble == [] && s.seeds == [] && s.seedFrames == [] {
      PopFaithful(s.traffic);
    }
    SameTrafficSameInv(w, s, Pumped(w.heap, s));
  }

  /** What a browser has been handed, and what it is still to be handed as of now. */
  ghost function Sent(s: Sub): seq<Frame> {
    s.opening + s.traffic.popped
  }

  ghost function Pending(heap: map<LiveVector, Vector>, s: Sub): seq<Frame>
    requires SeedsKnown(heap, s)
  {
    s.preamble + Definitions(heap, s.seeds) + s.seedFrames + Frames(s.traffic.queue.slots)
  }

  /** The objects filed in a well-filed cache have distinct keys. */
  lemma CachedKeys(w: World, ref: LiveVector)
    requires Inv(w) && Cached(w, ref)
    ensures ref in w.heap && Held(w, KeyOf(w.heap[ref])) == Some(w.heap[ref])
    ensures Has(w.cache, w.heap[ref].device, w.heap[ref].name)
    ensures w.cache[w.heap[ref].device][w.heap[ref].name] == ref
  {
    var d, n :| Has(w.cache, d, n) && w.cache[d][n] == ref;
    ReadHas(w.heap, w.cache, d, n);
  }

  /** A browser that has just attached is its whole seed away from the cache. */
  lemma AttachedSub(w: World, seeds: seq<LiveVector>)
    requires Inv(w) && Enabled(w, Attaching(seeds))
    ensures SubInv(w, Attached(seeds, w.log, w.history, w.connected))
  {
    hide Inv, Enabled, SeedsKnown, Agrees, AccountInv, ToldInv, Opening, Last, Faithful, Held;
    var s := Attached(seeds, w.log, w.history, w.connected);
    AttachedKnown(w, s);
    forall k ensures Agrees(w, s, k) {
      AttachedAgrees(w, s, seeds, k);
    }
    AttachedLog(w);
    NothingFaithful();
    AttachedNeutral(w, s, seeds);
    AttachedNotes(w, s);
    AttachedTold(w, s);
  }

  /** A browser that attaches will be sent, in this order: the greeting, a definition of every
      cached property as it stands when its turn comes, the retained notes, and the connection. */
  lemma AttachedIsSent(w: World, seeds: seq<LiveVector>)
    requires Inv(w) && Enabled(w, Attaching(seeds))
    ensures var s := Attached(seeds, w.log, w.history, w.connected);
            && SeedsKnown(w.heap, s)
            && Sent(s) + Pending(w.heap, s)
               == [Hello] + Definitions(w.heap, seeds) + Last(w.log, w.history) + [ConnectionFrame(w.connected)]
  {
    hide Inv, Enabled, Last, Definitions, SeedsKnown;
    AttachedKnown(w, Attached(seeds, w.log, w.history, w.connected));
  }

  lemma NothingFaithful()
    ensures Faithful(Traffic([], [], EMPTY))
  {
    RanFaithful([]);
  }

  lemma AttachedLog(w: World)
    requires Inv(w)
    ensures forall i :: 0 <= i < |w.log| ==> IsNote(w.log[i])
  {
  }

  lemma AttachedKnown(w: World, s: Sub)
    requires Inv(w) && Enabled(w, Attaching(s.seeds))
    ensures Closed(w) && SeedsKnown(w.heap, s)
  {
    hide SubInv, ReplacedTotal, DroppedTotal, DroppedFull, Read, WellFiled, Held, Cached;
    forall i | 0 <= i < |s.seeds| ensures s.seeds[i] in w.heap {
      CachedKeys(w, s.seeds[i]);
    }
    forall i, j | 0 <= i < j < |s.seeds| ensures KeyOf(w.heap[s.seeds[i]]) != KeyOf(w.heap[s.seeds[j]]) {
      CachedKeys(w, s.seeds[i]);
      CachedKeys(w, s.seeds[j]);
    }
  }

  lemma AttachedTold(w: World, s: Sub)
    requires SeedsKnown(w.heap, s) && s == Attached(s.seeds, w.log, w.history, w.connected)
    ensures ToldInv(w, s)
  {
    hide SeedsKnown, Status, Definitions, Delivered, Last;
    assert Opening(w.heap, s)[0] == Hello;
    StatusOfOpening(w.heap, s);
    StatusConcat(Last(w.log, w.history), [ConnectionFrame(w.connected)]);
    StatusOne(ConnectionFrame(w.connected));
    NothingOffered(s.traffic);
    assert Opening(w.heap, s) + [] == Opening(w.heap, s);
  }

  lemma AttachedNeutral(w: World, s: Sub, seeds: seq<LiveVector>)
    requires Inv(w) && s == Attached(seeds, w.log, w.history, w.connected)
    ensures Closed(w) && (forall i :: 0 <= i < |s.seedFrames| ==> Neutral(s.seedFrames[i]))
    ensures forall i :: 0 <= i < |s.opening + s.preamble| ==> Neutral((s.opening + s.preamble)[i])
  {
    hide SubInv, Read, WellFiled, ReplacedTotal, DroppedTotal;
    var retained := Last(w.log, w.history);
    assert forall i :: 0 <= i < |retained| ==> IsNote(retained[i]);
  }

  /** Every cached property is among the seeds, and nothing else is. */
  lemma SeedIsHeld(w: World, s: Sub, k: Key)
    requires Inv(w) && Enabled(w, Attaching(s.seeds)) && SeedsKnown(w.heap, s)
    ensures match SeedOf(w.heap, s.seeds, k)
            case Some(i) => Held(w, k) == Some(w.heap[s.seeds[i]])
            case None => Held(w, k) == None
  {
    hide Inv, SeedOf, Held;
    var at := SeedOf(w.heap, s.seeds, k);
    if at.Some? {
      CachedKeys(w, s.seeds[at.value]);
    } else {
      AbsentIsUnheld(w, s, k);
    }
  }

  lemma AbsentIsUnheld(w: World, s: Sub, k: Key)
    requires Inv(w) && Enabled(w, Attaching(s.seeds)) && SeedsKnown(w.heap, s)
    requires forall i :: 0 <= i < |s.seeds| ==> KeyOf(w.heap[s.seeds[i]]) != k
    ensures Held(w, k) == None
  {
    ReadHas(w.heap, w.cache, k.0, k.1);
    if Has(w.cache, k.0, k.1) {
      var ref := w.cache[k.0][k.1];
      hide SubInv, ReplacedTotal, DroppedTotal, Read, WellFiled;
      CachedKeys(w, ref);
    }
  }

  /** A browser seeded with every cached object starts from the cache. */
  lemma AttachedStarts(w: World, s: Sub, seeds: seq<LiveVector>, k: Key)
    requires Inv(w) && Enabled(w, Attaching(seeds)) && s == Attached(seeds, w.log, w.history, w.connected)
    requires SeedsKnown(w.heap, s)
    ensures Start(w.heap, s, k) == Held(w, k)
  {
    hide Inv, KeyFold, Start, SeedOf, Held, Enabled;
    AttachedNeutral(w, s, seeds);
    StartIs(w.heap, s, k);
    NeutralFold(None, s.opening + s.preamble, k);
    SeedIsHeld(w, s, k);
  }

  lemma AttachedAgrees(w: World, s: Sub, seeds: seq<LiveVector>, k: Key)
    requires Inv(w) && Enabled(w, Attaching(seeds)) && s == Attached(seeds, w.log, w.history, w.connected)
    requires SeedsKnown(w.heap, s)
    ensures Agrees(w, s, k)
  {
    AttachedStarts(w, s, seeds, k);
    hide Inv, Enabled, Start, Held, SeedsKnown, Precedes;
    if Held(w, k).Some? {
      PrecedesReflexive(Held(w, k).value);
    }
  }

  lemma {:induction false} NotesOfNotes(frames: seq<Frame>)
    requires forall i :: 0 <= i < |frames| ==> IsNote(frames[i])
    ensures Notes(frames) == frames
  {
    if frames != [] {
      NotesOfNotes(frames[..|frames| - 1]);
    }
  }

  lemma AttachedNotes(w: World, s: Sub)
    requires SeedsKnown(w.heap, s) && s == Attached(s.seeds, w.log, w.history, w.connected)
    requires forall i :: 0 <= i < |w.log| ==> IsNote(w.log[i])
    ensures AccountInv(w, s)
  {
    hide SeedsKnown, Opening, Notes, Blobs, IsNote, Definitions, Delivered;
    var retained := Last(w.log, w.history);
    NotesOfOpening(w.heap, s);
    AttachedFrames(retained, w.connected);
    assert s.opening + s.preamble == [Hello];
    assert w.log[..|w.log|] == w.log;
    NothingOffered(s.traffic);
  }

  lemma AttachedFrames(retained: seq<Frame>, connected: bool)
    requires forall i :: 0 <= i < |retained| ==> IsNote(retained[i])
    ensures Notes([Hello]) == [] && Notes(retained + [ConnectionFrame(connected)]) == retained
  {
    NotesConcat(retained, [ConnectionFrame(connected)]);
    NotesOne(ConnectionFrame(connected));
    NotesOfNotes(retained);
    NotesOne(Hello);
  }

  lemma NothingOffered(t: Traffic)
    requires t == Traffic([], [], EMPTY)
    ensures Delivered(t) == [] && Notes([]) == [] && Blobs([]) == 0
  {
  }

  lemma BroadcastCounters(w: World, f: Frame)
    requires forall i :: 0 <= i < |w.subs| && w.subs[i].live ==> !w.subs[i].droppedForBacklog
    requires w.coalescedBlobs == ReplacedTotal(w.subs) && w.droppedSlowSinks == DroppedTotal(w.subs)
    ensures Broadcast(w, f).coalescedBlobs == ReplacedTotal(Broadcast(w, f).subs)
    ensures Broadcast(w, f).droppedSlowSinks == DroppedTotal(Broadcast(w, f).subs)
  {
    ReceiveAllTotals(w.subs, f, w.backlog);
  }

  /** A browser dropped by a frame had been within its backlog, and one frame takes one slot. */
  lemma DroppedAfterFrame(w: World, s: Sub, f: Frame)
    requires s.live ==> Tight(s.traffic.queue) && |s.traffic.queue.slots| <= w.backlog
    requires s.droppedForBacklog ==> DroppedFull(w, s)
    ensures Receive(s, f, w.backlog).droppedForBacklog ==> DroppedFull(w, Receive(s, f, w.backlog))
  {
    hide Tight, Offered, IsOpen;
    if s.live {
      OfferedTight(s.traffic.queue, f);
    }
  }

  lemma HeardKeepsInv(w: World, msg: IndiMessage, ref: LiveVector)
    requires Inv(w) && Enabled(w, Receiving(msg, ref))
    ensures Inv(Heard(w, msg, ref)) && Upstream(Heard(w, msg, ref)) == Applied(Upstream(w), msg)
  {
    hide SubInv, DroppedFull, ReplacedTotal, DroppedTotal, WellFiled, Known, Read, Put, Drop, MergeVector, EventOf,
         Admissible, ReceiveAll, SkipCount, OverrunCount;
    UpstreamStep(w, msg, ref);
    if Relayed(w, msg).None? {
      NothingRelayed(w, msg, ref);
    } else {
      HeardKeepsSubs(w, msg, ref);
    }
  }

  /** Storing a message touches neither the browsers nor the log. */
  lemma StoredKeeps(w: World, msg: IndiMessage, ref: LiveVector)
    requires Closed(w)
    ensures Stored(w, msg, ref).subs == w.subs && Stored(w, msg, ref).log == w.log
    ensures Stored(w, msg, ref).backlog == w.backlog && Stored(w, msg, ref).coalescedBlobs == w.coalescedBlobs
    ensures Stored(w, msg, ref).droppedSlowSinks == w.droppedSlowSinks
  {
    hide MergeVector, Put, Drop, Read;
  }

  /** Relaying reaches every browser, and the counters stay the sums. */
  lemma HeardReaches(w: World, msg: IndiMessage, ref: LiveVector)
    requires Closed(w) && Relayed(w, msg).Some?
    requires forall i :: 0 <= i < |w.subs| && w.subs[i].live ==> !w.subs[i].droppedForBacklog
    requires w.coalescedBlobs == ReplacedTotal(w.subs) && w.droppedSlowSinks == DroppedTotal(w.subs)
    ensures var w', f := Heard(w, msg, ref), Relayed(w, msg).value;
            && |w'.subs| == |w.subs| && (forall i :: 0 <= i < |w.subs| ==> w'.subs[i] == Receive(w.subs[i], f, w.backlog))
            && w'.coalescedBlobs == ReplacedTotal(w'.subs) && w'.droppedSlowSinks == DroppedTotal(w'.subs)
            && w'.heap == Stored(w, msg, ref).heap && w'.cache == Stored(w, msg, ref).cache
            && w'.backlog == w.backlog
            && w'.log == w.log + if IsNote(f) then [f] else []
  {
    hide Closed, Stored, Relayed, ReplacedTotal, DroppedTotal, SkipCount, OverrunCount, Receive;
    StoredKeeps(w, msg, ref);
    var f, stored := Relayed(w, msg).value, Stored(w, msg, ref);
    BroadcastCounters(if IsNote(f) then stored.(log := w.log + [f]) else stored, f);
  }

  lemma HeardDrops(w: World, msg: IndiMessage, ref: LiveVector)
    requires Inv(w) && Relayed(w, msg).Some?
    ensures var w' := Heard(w, msg, ref);
            forall i :: 0 <= i < |w'.subs| && w'.subs[i].droppedForBacklog ==> DroppedFull(w', w'.subs[i])
  {
    hide ReplacedTotal, DroppedTotal, WellFiled, Heard, Stored, Known, Read, Relayed, Receive, Tight, AccountInv, ToldInv,
         Agrees, SeedsKnown;
    HeardReaches(w, msg, ref);
    var w', f := Heard(w, msg, ref), Relayed(w, msg).value;
    forall i | 0 <= i < |w'.subs| && w'.subs[i].droppedForBacklog ensures DroppedFull(w', w'.subs[i]) {
      DroppedAfterFrame(w, w.subs[i], f);
    }
  }

  lemma HeardKeepsSubs(w: World, msg: IndiMessage, ref: LiveVector)
    requires Inv(w) && Enabled(w, Receiving(msg, ref)) && Relayed(w, msg).Some?
    ensures var w' := Heard(w, msg, ref);
            && Closed(w')
            && (forall i :: 0 <= i < |w'.subs| && w'.subs[i].live ==> SubInv(w', w'.subs[i]))
            && (forall i :: 0 <= i < |w'.subs| && w'.subs[i].droppedForBacklog ==> DroppedFull(w', w'.subs[i]))
            && w'.coalescedBlobs == ReplacedTotal(w'.subs)
            && w'.droppedSlowSinks == DroppedTotal(w'.subs)
            && (forall i :: 0 <= i < |w'.log| ==> IsNote(w'.log[i]))
  {
    hide SubInv, Offer, ReplacedTotal, DroppedTotal, WellFiled, Heard, Stored, Known, Read, Relayed;
    UpstreamStep(w, msg, ref);
    HeardReaches(w, msg, ref);
    HeardDrops(w, msg, ref);
    var w' := Heard(w, msg, ref);
    forall i | 0 <= i < |w'.subs| && w'.subs[i].live ensures SubInv(w', w'.subs[i]) {
      HeardKeepsSub(w, msg, ref, w.subs[i]);
    }
  }

  lemma ConnectingKeepsInv(w: World, up: bool)
    requires Inv(w)
    ensures Inv(Next(w, Connecting(up)))
  {
    var f := ConnectionFrame(up);
    var w' := Next(w, Connecting(up));
    BroadcastCounters(w.(connected := up), f);
    forall i | 0 <= i < |w'.subs| && w'.subs[i].live ensures SubInv(w', w'.subs[i]) {
      ConnectingKeepsSub(w, up, w.subs[i]);
    }
    forall i | 0 <= i < |w'.subs| && w'.subs[i].droppedForBacklog ensures DroppedFull(w', w'.subs[i]) {
      DroppedAfterFrame(w, w.subs[i], f);
    }
  }

  lemma AttachingKeepsInv(w: World, seeds: seq<LiveVector>)
    requires Inv(w) && Enabled(w, Attaching(seeds))
    ensures Inv(Next(w, Attaching(seeds)))
  {
    hide SubInv, Read, WellFiled, Cached, Last;
    var w' := Next(w, Attaching(seeds));
    AttachedSub(w, seeds);
    assert w'.subs[..|w.subs|] == w.subs;
    forall i | 0 <= i < |w'.subs| && w'.subs[i].live ensures SubInv(w', w'.subs[i]) {
      SameUpstreamSameInv(w, w', w'.subs[i]);
    }
  }

  /** A step that concerns one browser alone. */
  lemma OneSubKeepsInv(w: World, w': World, i: nat)
    requires Inv(w) && i < |w.subs| && |w'.subs| == |w.subs| && w'.subs == w.subs[i := w'.subs[i]]
    requires w' == w.(subs := w'.subs, droppedSlowSinks := w'.droppedSlowSinks)
    requires w'.subs[i].replacedBlobs == w.subs[i].replacedBlobs
    requires w'.droppedSlowSinks == w.droppedSlowSinks - (if w.subs[i].droppedForBacklog then 1 else 0)
                                    + (if w'.subs[i].droppedForBacklog then 1 else 0)
    requires w'.subs[i].live ==> SubInv(w, w'.subs[i])
    requires w'.subs[i].droppedForBacklog ==> DroppedFull(w, w'.subs[i])
    ensures Inv(w')
  {
    TotalsUpdate(w.subs, i, w'.subs[i]);
    forall j | 0 <= j < |w'.subs| && w'.subs[j].live ensures SubInv(w', w'.subs[j]) {
      SameUpstreamSameInv(w, w', w'.subs[j]);
    }
  }

  lemma PumpingKeepsInv(w: World, i: nat)
    requires Inv(w) && Enabled(w, Pumping(i))
    ensures Inv(Next(w, Pumping(i)))
  {
    PumpKeepsSub(w, w.subs[i]);
    OneSubKeepsInv(w, Next(w, Pumping(i)), i);
  }

  lemma ControllingKeepsInv(w: World, i: nat, frame: Frame)
    requires Inv(w) && Enabled(w, Controlling(i, frame))
    ensures Inv(Next(w, Controlling(i, frame)))
  {
    if w.subs[i].live && !Overruns(w.subs[i], frame, w.backlog) {
      ControlKeepsSub(w, w, w.subs[i], frame);
    }
    DroppedAfterFrame(w, w.subs[i], frame);
    OneSubKeepsInv(w, Next(w, Controlling(i, frame)), i);
  }

  lemma LeavingKeepsInv(w: World, i: nat)
    requires Inv(w) && Enabled(w, Leaving(i))
    ensures Inv(Next(w, Leaving(i)))
  {
    OneSubKeepsInv(w, Next(w, Leaving(i)), i);
  }

  lemma StepKeepsInv(w: World, a: Action)
    requires Inv(w) && Enabled(w, a)
    ensures Inv(Next(w, a))
  {
    hide Inv, Heard, Broadcast, Pumped, Receive;
    match a {
      case Receiving(msg, ref) =>
        HeardKeepsInv(w, msg, ref);
      case Connecting(up) =>
        ConnectingKeepsInv(w, up);
      case Attaching(seeds) =>
        AttachingKeepsInv(w, seeds);
      case Pumping(i) =>
        PumpingKeepsInv(w, i);
      case Controlling(i, frame) =>
        ControllingKeepsInv(w, i, frame);
      case Leaving(i) =>
        LeavingKeepsInv(w, i);
    }
  }

  // ------------------------------------------------------------------------ //
  // Over every run                                                            //
  // ------------------------------------------------------------------------ //

  lemma {:induction false} RunKeepsInv(history: nat, backlog: nat, actions: seq<Action>)
    requires Possible(Initial(history, backlog), actions)
    ensures Inv(After(Initial(history, backlog), actions))
  {
    if actions == [] {
      assert Upstream(Initial(history, backlog)) == map[];
    } else {
      RunKeepsInv(history, backlog, actions[..|actions| - 1]);
      StepKeepsInv(After(Initial(history, backlog), actions[..|actions| - 1]), actions[|actions| - 1]);
    }
  }

  /** The upstream messages of a run, in order. */
  function Received(actions: seq<Action>): seq<IndiMessage> {
    if actions == [] then []
    else
      var before := Received(actions[..|actions| - 1]);
      if actions[|actions| - 1].Receiving? then before + [actions[|actions| - 1].msg] else before
  }

  lemma OnlyReceivingMovesTheCache(w: World, a: Action)
    requires Inv(w) && Enabled(w, a)
    ensures Closed(Next(w, a))
    ensures Upstream(Next(w, a)) == if a.Receiving? then Applied(Upstream(w), a.msg) else Upstream(w)
  {
    if a.Receiving? {
      HeardKeepsInv(w, a.msg, a.ref);
    } else {
      assert Next(w, a).heap == w.heap && Next(w, a).cache == w.cache;
    }
  }

  lemma AppliedAllSnoc(c: Cache, msgs: seq<IndiMessage>, msg: IndiMessage)
    ensures AppliedAll(c, msgs + [msg]) == Applied(AppliedAll(c, msgs), msg)
  {
    assert (msgs + [msg])[..|msgs|] == msgs;
  }

  /** The upstream cache is the fold of everything received, whatever browsers do. */
  lemma {:induction false} UpstreamIsTheFold(history: nat, backlog: nat, actions: seq<Action>)
    requires Possible(Initial(history, backlog), actions)
    ensures Closed(After(Initial(history, backlog), actions))
    ensures Upstream(After(Initial(history, backlog), actions)) == AppliedAll(map[], Received(actions))
  {
    var start := Initial(history, backlog);
    if actions == [] {
      assert Upstream(start) == map[];
    } else {
      var init, a := actions[..|actions| - 1], actions[|actions| - 1];
      UpstreamIsTheFold(history, backlog, init);
      RunKeepsInv(history, backlog, init);
      OnlyReceivingMovesTheCache(After(start, init), a);
      if a.Receiving? {
        AppliedAllSnoc(map[], Received(init), a.msg);
      }
    }
  }

  /** The log messages among those received, as the frames they are relayed as. */
  function Logged(msgs: seq<IndiMessage>): seq<Frame> {
    if msgs == [] then []
    else
      Logged(msgs[..|msgs| - 1]) + if msgs[|msgs| - 1].Message? then [Indi(msgs[|msgs| - 1])] else []
  }

  /** When each browser attached: the positions of the attaching steps. */
  function Arrivals(actions: seq<Action>): seq<nat> {
    if actions == [] then []
    else
      Arrivals(actions[..|actions| - 1]) + if actions[|actions| - 1].Attaching? then [|actions| - 1] else []
  }

  lemma RelaysNotes(w: World, msg: IndiMessage)
    requires Closed(w)
    ensures msg.Message? ==> Relayed(w, msg) == Some(Indi(msg))
    ensures Relayed(w, msg).Some? && IsNote(Relayed(w, msg).value) ==> msg.Message?
  {
    hide MergeVector, Closed, Read;
  }

  lemma BroadcastJoins(w: World, f: Frame)
    ensures Broadcast(w, f).log == w.log && |Broadcast(w, f).subs| == |w.subs|
    ensures forall i :: 0 <= i < |w.subs| ==> Broadcast(w, f).subs[i].joined == w.subs[i].joined
  {
    hide Offer, Overruns, Skips, SkipCount, OverrunCount;
  }

  lemma HeardLogs(w: World, msg: IndiMessage, ref: LiveVector)
    requires Closed(w)
    ensures Heard(w, msg, ref).log == w.log + Logged([msg])
    ensures |Heard(w, msg, ref).subs| == |w.subs|
    ensures forall i :: 0 <= i < |w.subs| ==> Heard(w, msg, ref).subs[i].joined == w.subs[i].joined
  {
    hide Closed, Stored, Relayed, Broadcast;
    assert [msg][..0] == [];
    StoredKeeps(w, msg, ref);
    RelaysNotes(w, msg);
    if Relayed(w, msg).Some? {
      var stored, f := Stored(w, msg, ref), Relayed(w, msg).value;
      BroadcastJoins(if IsNote(f) then stored.(log := w.log + [f]) else stored, f);
    }
  }

  /** What one step does to the log, and to where each browser joined it. */
  lemma StepLogs(w: World, a: Action)
    requires Enabled(w, a)
    ensures Next(w, a).log == w.log + if a.Receiving? then Logged([a.msg]) else []
    ensures |Next(w, a).subs| == |w.subs| + if a.Attaching? then 1 else 0
    ensures forall i :: 0 <= i < |w.subs| ==> Next(w, a).subs[i].joined == w.subs[i].joined
    ensures a.Attaching? ==> Next(w, a).subs[|w.subs|].joined == |w.log|
  {
    hide Heard, Broadcast, Logged, Closed, Admissible, Cached, Offer, Overruns, Skips, Last;
    match a
    case Receiving(msg, ref) => HeardLogs(w, msg, ref);
    case Connecting(up) => BroadcastJoins(w.(connected := up), ConnectionFrame(up));
    case _ =>
  }

  lemma {:induction false} LoggedConcat(xs: seq<IndiMessage>, ys: seq<IndiMessage>)
    ensures Logged(xs + ys) == Logged(xs) + Logged(ys)
  {
    if ys == [] {
      assert xs + ys == xs;
    } else {
      assert (xs + ys)[..|xs + ys| - 1] == xs + ys[..|ys| - 1];
      LoggedConcat(xs, ys[..|ys| - 1]);
    }
  }

  lemma {:induction false} ReceivedConcat(xs: seq<Action>, ys: seq<Action>)
    ensures Received(xs + ys) == Received(xs) + Received(ys)
  {
    if ys == [] {
      assert xs + ys == xs;
    } else {
      assert (xs + ys)[..|xs + ys| - 1] == xs + ys[..|ys| - 1];
      ReceivedConcat(xs, ys[..|ys| - 1]);
    }
  }

  /** The log is every log message received, in order. */
  lemma {:induction false} LogIsReceived(history: nat, backlog: nat, actions: seq<Action>)
    requires Possible(Initial(history, backlog), actions)
    ensures After(Initial(history, backlog), actions).log == Logged(Received(actions))
  {
    hide Next;
    if actions != [] {
      var init, a := actions[..|actions| - 1], actions[|actions| - 1];
      LogIsReceived(history, backlog, init);
      StepLogs(After(Initial(history, backlog), init), a);
      if a.Receiving? {
        LoggedConcat(Received(init), [a.msg]);
      }
    }
  }

  /** A browser joined the log where it stood when the browser attached. */
  lemma {:induction false} JoinedOnArrival(history: nat, backlog: nat, actions: seq<Action>)
    requires Possible(Initial(history, backlog), actions)
    ensures |Arrivals(actions)| == |After(Initial(history, backlog), actions).subs|
    ensures forall i :: 0 <= i < |Arrivals(actions)| ==>
              && Arrivals(actions)[i] <= |actions|
              && After(Initial(history, backlog), actions).subs[i].joined
                 == |Logged(Received(actions[..Arrivals(actions)[i]]))|
  {
    hide Next, Logged, Received, Possible;
    if actions != [] {
      var init, a := actions[..|actions| - 1], actions[|actions| - 1];
      PossibleBefore(history, backlog, actions);
      JoinedOnArrival(history, backlog, init);
      StepLogs(After(Initial(history, backlog), init), a);
      LogIsReceived(history, backlog, init);
      forall i | 0 <= i < |Arrivals(init)| ensures actions[..Arrivals(init)[i]] == init[..Arrivals(init)[i]] {
      }
    }
  }

  lemma PossibleBefore(history: nat, backlog: nat, actions: seq<Action>)
    requires actions != [] && Possible(Initial(history, backlog), actions)
    ensures Possible(Initial(history, backlog), actions[..|actions| - 1])
    ensures Enabled(After(Initial(history, backlog), actions[..|actions| - 1]), actions[|actions| - 1])
  {
  }

  /** The log up to a browser's arrival, and since. */
  lemma LogAround(history: nat, backlog: nat, actions: seq<Action>, i: nat)
    requires Possible(Initial(history, backlog), actions)
    requires i < |After(Initial(history, backlog), actions).subs|
    ensures i < |Arrivals(actions)| && Arrivals(actions)[i] <= |actions|
    ensures var w, at := After(Initial(history, backlog), actions), Arrivals(actions)[i];
            && w.subs[i].joined <= |w.log|
            && w.log[..w.subs[i].joined] == Logged(Received(actions[..at]))
            && w.log[w.subs[i].joined..] == Logged(Received(actions[at..]))
  {
    hide Possible, After, Logged, Received;
    JoinedOnArrival(history, backlog, actions);
    LogIsReceived(history, backlog, actions);
    var at := Arrivals(actions)[i];
    ReceivedConcat(actions[..at], actions[at..]);
    LoggedConcat(Received(actions[..at]), Received(actions[at..]));
    assert actions[..at] + actions[at..] == actions;
  }

  lemma SentThenPending(w: World, s: Sub)
    requires SeedsKnown(w.heap, s) && OpeningInv(s)
    ensures Sent(s) + Pending(w.heap, s) == Opening(w.heap, s) + Delivered(s.traffic)
  {
    if s.preamble == [] && s.seeds == [] && s.seedFrames == [] {
      assert Definitions(w.heap, s.seeds) == [];
    }
  }

  lemma BrowserAccounted(w: World, s: Sub)
    requires Closed(w) && SubInv(w, s)
    ensures Notes(Sent(s) + Pending(w.heap, s)) == Last(w.log[..s.joined], w.history) + w.log[s.joined..]
    ensures Blobs(s.traffic.offered)
            == Blobs(s.traffic.popped) + Blobs(Frames(s.traffic.queue.slots)) + s.replacedBlobs
  {
    SentThenPending(w, s);
    NotesConcat(Opening(w.heap, s), Delivered(s.traffic));
    BlobsConcat(s.traffic.popped, Frames(s.traffic.queue.slots));
  }

  /** The invariant, read from a browser: with its pending frames it is the cache. */
  lemma BrowserAgrees(w: World, s: Sub, k: Key)
    requires Closed(w) && SubInv(w, s)
    ensures Lookup(Folded(map[], Sent(s) + Pending(w.heap, s)), k) == Held(w, k)
  {
    var opening, delivered := Opening(w.heap, s), Delivered(s.traffic);
    var all := Sent(s) + Pending(w.heap, s);
    SentThenPending(w, s);
    assert Agrees(w, s, k) && SameFate(s.traffic, KeyFold(None, opening, k), k);
    FoldedAt(map[], all, k);
    KeyFoldConcat(None, opening, delivered, k);
  }

  /** In every reachable state, for every live browser and every property: what the
      browser makes of the frames it was sent, then of a definition of each unsent
      seed as it stands now, then of the queued frames, is what folding every upstream
      message gives. */
  lemma EveryBrowserIsItsPendingFramesAway(
      history: nat, backlog: nat, actions: seq<Action>, i: nat, k: Key)
    requires Possible(Initial(history, backlog), actions)
    requires i < |After(Initial(history, backlog), actions).subs|
    requires After(Initial(history, backlog), actions).subs[i].live
    ensures var w := After(Initial(history, backlog), actions);
            && SeedsKnown(w.heap, w.subs[i])
            && Lookup(Folded(map[], Sent(w.subs[i]) + Pending(w.heap, w.subs[i])), k)
               == Lookup(AppliedAll(map[], Received(actions)), k)
  {
    RunKeepsInv(history, backlog, actions);
    UpstreamIsTheFold(history, backlog, actions);
    var w := After(Initial(history, backlog), actions);
    BrowserAgrees(w, w.subs[i], k);
  }

  /** In every reachable state, for every live browser: its queue is within the backlog;
      its log messages are the last ones received before it attached, as many as are
      retained, followed by every one received since, once and in order; and the images it
      was offered were sent, are queued, or were counted
      as replaced, the global counters being the sums over all browsers. */
  lemma EveryBrowserIsAccountedFor(history: nat, backlog: nat, actions: seq<Action>, i: nat)
    requires Possible(Initial(history, backlog), actions)
    requires i < |After(Initial(history, backlog), actions).subs|
    requires After(Initial(history, backlog), actions).subs[i].live
    ensures var w := After(Initial(history, backlog), actions);
            var s := w.subs[i];
            && |s.traffic.queue.slots| <= backlog
            && i < |Arrivals(actions)| && Arrivals(actions)[i] <= |actions| && SeedsKnown(w.heap, s)
            && Notes(Sent(s) + Pending(w.heap, s))
               == Last(Logged(Received(actions[..Arrivals(actions)[i]])), history)
                  + Logged(Received(actions[Arrivals(actions)[i]..]))
            && Blobs(s.traffic.offered)
               == Blobs(s.traffic.popped) + Blobs(Frames(s.traffic.queue.slots)) + s.replacedBlobs
            && w.coalescedBlobs == ReplacedTotal(w.subs)
            && w.droppedSlowSinks == DroppedTotal(w.subs)
  {
    RunKeepsInv(history, backlog, actions);
    RunKeepsLimits(history, backlog, actions);
    LogAround(history, backlog, actions, i);
    var w := After(Initial(history, backlog), actions);
    BrowserAccounted(w, w.subs[i]);
  }

  /** How the last upstream connection change of a run left it; a run starts disconnected. */
  function Up(actions: seq<Action>): bool {
    if actions == [] then false
    else if actions[|actions| - 1].Connecting? then actions[|actions| - 1].up
    else Up(actions[..|actions| - 1])
  }

  lemma {:induction false} ConnectedIsUp(history: nat, backlog: nat, actions: seq<Action>)
    requires Possible(Initial(history, backlog), actions)
    ensures After(Initial(history, backlog), actions).connected == Up(actions)
  {
    if actions != [] {
      var init := actions[..|actions| - 1];
      ConnectedIsUp(history, backlog, init);
      StepConnects(After(Initial(history, backlog), init), actions[|actions| - 1]);
    }
  }

  lemma StepConnects(w: World, a: Action)
    requires Enabled(w, a)
    ensures Next(w, a).connected == if a.Connecting? then a.up else w.connected
  {
    hide Relayed, ReceiveAll, SkipCount, OverrunCount, Receive, MergeVector, Put, Drop, Attached, Pumped, Overruns;
  }

  /** In every reachable state a live browser is greeted before anything else, and the last
      word on the upstream connection among what it was sent and is to be sent is how the
      connection was last left. */
  lemma EveryBrowserIsTold(history: nat, backlog: nat, actions: seq<Action>, i: nat)
    requires Possible(Initial(history, backlog), actions)
    requires i < |After(Initial(history, backlog), actions).subs|
    requires After(Initial(history, backlog), actions).subs[i].live
    ensures var w := After(Initial(history, backlog), actions);
            var s := w.subs[i];
            && SeedsKnown(w.heap, s) && Sent(s) + Pending(w.heap, s) != []
            && (Sent(s) + Pending(w.heap, s))[0] == Hello
            && Status(Sent(s) + Pending(w.heap, s)) == Some(Up(actions))
  {
    RunKeepsInv(history, backlog, actions);
    ConnectedIsUp(history, backlog, actions);
    hide Possible, After, Status, Up, Agrees, AccountInv, Faithful, Opening;
    var w := After(Initial(history, backlog), actions);
    SentThenPending(w, w.subs[i]);
  }

  /** In every reachable state a live browser's queue has room for what is in it, a browser
      dropped for its backlog had one frame too many queued and no more, and a property can
      be overwritten in a live queue exactly while a slot of it is queued with no `def` or
      `del` of it behind. */
  lemma EveryQueueIsBounded(history: nat, backlog: nat, actions: seq<Action>, i: nat)
    requires Possible(Initial(history, backlog), actions)
    requires i < |After(Initial(history, backlog), actions).subs|
    ensures var s := After(Initial(history, backlog), actions).subs[i];
            && (s.live ==> |s.traffic.queue.slots| <= backlog && Tight(s.traffic.queue))
            && (s.droppedForBacklog ==> !s.live && |s.traffic.queue.slots| == backlog + 1)
  {
    RunKeepsInv(history, backlog, actions);
    RunKeepsLimits(history, backlog, actions);
    hide Possible, After, Tight, Agrees, AccountInv, ToldInv, SeedsKnown;
  }

  lemma {:induction false} RunKeepsLimits(history: nat, backlog: nat, actions: seq<Action>)
    requires Possible(Initial(history, backlog), actions)
    ensures After(Initial(history, backlog), actions).history == history
    ensures After(Initial(history, backlog), actions).backlog == backlog
  {
    if actions != [] {
      RunKeepsLimits(history, backlog, actions[..|actions| - 1]);
    }
  }
}
