/** The property cache every hop of the pipeline is compared against, and the two
    stores that implement it: the in-place one of src/indikit/client/store.py and
    the immutable one of web/packages/client/src/store.ts. */
module Store {
  import opened Wire
  import opened Merge

  type Key = (string, string)

  type Nested<V> = map<string, map<string, V>>

  type Cache = Nested<Vector>

  datatype EventType = Defined | Updated | Deleted

  datatype PropertyEvent<+V> = PropertyEvent(
    what: EventType, device: string, name: Option<string>, vector: Option<V>,
    message: Option<string>, timestamp: Option<int>)

  predicate Has<V>(m: Nested<V>, device: string, name: string) {
    device in m && name in m[device]
  }

  function Lookup(c: Cache, k: Key): Option<Vector> {
    if Has(c, k.0, k.1) then Some(c[k.0][k.1]) else None
  }

  function Put<V>(m: Nested<V>, device: string, name: string, v: V): Nested<V> {
    m[device := (if device in m then m[device] else map[])[name := v]]
  }

  function Drop<V>(m: Nested<V>, device: string, name: Option<string>): Nested<V> {
    if device !in m then m
    else
      match name
      case None => m - {device}
      case Some(n) => m[device := m[device] - {n}]
  }

  /** The cache after one message: `def` defines, `set` merges, `del` removes. */
  function Applied(c: Cache, msg: IndiMessage): Cache {
    match msg
    case DefVector(v) => Put(c, v.device, v.name, v)
    case SetVector(v, statePresent) =>
      if Has(c, v.device, v.name)
      then Put(c, v.device, v.name, MergeVector(c[v.device][v.name], v, statePresent))
      else c
    case DelProperty(device, name, _, _) => Drop(c, device, name)
    case _ => c
  }

  /** The event a store reports for the message; absent when nothing changed. */
  function EventOf(c: Cache, msg: IndiMessage): Option<PropertyEvent<Vector>> {
    match msg
    case DefVector(v) => Some(PropertyEvent(Defined, v.device, Some(v.name), Some(v), None, None))
    case SetVector(v, statePresent) =>
      if Has(c, v.device, v.name)
      then var merged := MergeVector(c[v.device][v.name], v, statePresent);
           Some(PropertyEvent(Updated, merged.device, Some(merged.name), Some(merged), None, None))
      else None
    case DelProperty(device, name, timestamp, why) =>
      if device in c && (name.Some? ==> name.value in c[device])
      then Some(PropertyEvent(Deleted, device, name, None, why, timestamp))
      else None
    case _ => None
  }

  /** What the message does to one property, whatever the rest of the cache holds. */
  function KeyApplied(o: Option<Vector>, msg: IndiMessage, k: Key): Option<Vector> {
    match msg
    case DefVector(v) => if (v.device, v.name) == k then Some(v) else o
    case SetVector(v, statePresent) =>
      if (v.device, v.name) == k && o.Some? then Some(MergeVector(o.value, v, statePresent)) else o
    case DelProperty(device, name, _, _) =>
      if device == k.0 && (name.None? || name.value == k.1) then None else o
    case _ => o
  }

  lemma AppliedAt(c: Cache, msg: IndiMessage, k: Key)
    ensures Lookup(Applied(c, msg), k) == KeyApplied(Lookup(c, k), msg, k)
  {
  }

  /** Element names are unique and a `set` gives the kinds its definition gave. */
  predicate Admissible(c: Cache, msg: IndiMessage) {
    match msg
    case DefVector(v) => UniqueNames(v.elements)
    case SetVector(v, _) =>
      && UniqueNames(v.elements)
      && (Has(c, v.device, v.name) ==> KindsMatch(c[v.device][v.name].elements, v.elements))
    case _ => true
  }

  /** Every vector is filed under its own device and name, with unique elements. */
  ghost predicate WellFiled(c: Cache) {
    forall d, n :: Has(c, d, n) ==>
      c[d][n].device == d && c[d][n].name == n && UniqueNames(c[d][n].elements)
  }

  /** The message names this property, or the whole of its device. */
  predicate Names(msg: IndiMessage, k: Key) {
    match msg
    case DefVector(v) => k == (v.device, v.name)
    case SetVector(v, _) => k == (v.device, v.name)
    case DelProperty(device, name, _, _) => device == k.0 && (name.Some? ==> name.value == k.1)
    case _ => false
  }

  /** A definition replaces what was cached, an update of nothing does nothing, a deletion
      leaves nothing it names; whatever a message does not name stays. A device whose last
      property is deleted by name is still known, one deleted as a whole is not. */
  lemma AppliedTouches(c: Cache, msg: IndiMessage, k: Key)
    ensures !Names(msg, k) ==> Lookup(Applied(c, msg), k) == Lookup(c, k)
    ensures Names(msg, k) ==>
              match msg
              case DefVector(v) => Lookup(Applied(c, msg), k) == Some(v)
              case SetVector(v, statePresent) =>
                if Lookup(c, k).None? then Applied(c, msg) == c
                else Lookup(Applied(c, msg), k) == Some(MergeVector(Lookup(c, k).value, v, statePresent))
              case _ => Lookup(Applied(c, msg), k) == None
    ensures match msg
            case DefVector(v) => Applied(c, msg).Keys == c.Keys + {v.device}
            case DelProperty(device, None, _, _) => Applied(c, msg).Keys == c.Keys - {device}
            case _ => Applied(c, msg).Keys == c.Keys
  {
    hide MergeVector;
  }

  /** What a store says of a change: of a definition and an update, the vector as it is now
      cached; of a deletion, what it named and the reason and the time it came with. */
  predicate Tells(event: PropertyEvent<Vector>, msg: IndiMessage, after: Cache) {
    match msg
    case DefVector(v) =>
      event == PropertyEvent(Defined, v.device, Some(v.name), Lookup(after, (v.device, v.name)), None, None)
    case SetVector(v, _) =>
      event == PropertyEvent(Updated, v.device, Some(v.name), Lookup(after, (v.device, v.name)), None, None)
    case DelProperty(device, name, timestamp, why) =>
      event == PropertyEvent(Deleted, device, name, None, why, timestamp)
    case _ => false
  }

  /** A store reports every change and, but for a definition or an update that leaves its
      property as it was, nothing else. */
  lemma EventReports(c: Cache, msg: IndiMessage)
    requires WellFiled(c)
    ensures EventOf(c, msg).Some? ==> Tells(EventOf(c, msg).value, msg, Applied(c, msg))
    ensures EventOf(c, msg).Some? <==>
              match msg
              case DefVector(_) => true
              case SetVector(v, _) => Lookup(c, (v.device, v.name)).Some?
              case _ => Applied(c, msg) != c
  {
    hide MergeVector;
    if msg.SetVector? && Has(c, msg.vector.device, msg.vector.name) {
      MergeNames(c[msg.vector.device][msg.vector.name], msg.vector, msg.statePresent);
    }
    if msg.DelProperty? {
      DropsSomething(c, msg.device, msg.name);
    }
  }

  lemma MergeNames(v: Vector, source: Vector, statePresent: bool)
    ensures MergeVector(v, source, statePresent).device == v.device && MergeVector(v, source, statePresent).name == v.name
  {
  }

  lemma DropsSomething(c: Cache, device: string, name: Option<string>)
    ensures Drop(c, device, name) != c <==> device in c && (name.Some? ==> name.value in c[device])
  {
    if device in c {
      if name.None? {
        assert device !in Drop(c, device, name);
      } else if name.value in c[device] {
        assert name.value !in Drop(c, device, name)[device];
      } else {
        assert c[device] - {name.value} == c[device];
      }
    }
  }

  lemma AppliedWellFiled(c: Cache, msg: IndiMessage)
    requires WellFiled(c) && Admissible(c, msg)
    ensures WellFiled(Applied(c, msg))
  {
    if msg.SetVector? && Has(c, msg.vector.device, msg.vector.name) {
      MergeKeepsNames(c[msg.vector.device][msg.vector.name], msg.vector, msg.statePresent);
    }
  }

  function AppliedAll(c: Cache, msgs: seq<IndiMessage>): Cache {
    if msgs == [] then c
    else Applied(AppliedAll(c, msgs[..|msgs| - 1]), msgs[|msgs| - 1])
  }

  /** Every message of a sequence is admissible where it comes. */
  ghost predicate AllAdmissible(c: Cache, msgs: seq<IndiMessage>)
    decreases |msgs|
  {
    msgs != [] ==> Admissible(c, msgs[0]) && AllAdmissible(Applied(c, msgs[0]), msgs[1..])
  }

  // ------------------------------------------------------------------------ //
  // The Python store                                                          //
  // ------------------------------------------------------------------------ //

  ghost function Files(m: Nested<LiveVector>): set<LiveVector> {
    set d, n | d in m && n in m[d] :: m[d][n]
  }

  /** The values one device's vector objects hold now. */
  ghost function RowValues(row: map<string, LiveVector>): map<string, Vector>
    reads set n | n in row :: row[n]
  {
    map n | n in row :: row[n].Value()
  }

  ghost function Values(m: Nested<LiveVector>): Cache
    reads Files(m)
  {
    map d | d in m :: RowValues(m[d])
  }

  /** Every object is filed under its own device and name, with unique elements. */
  ghost predicate Filed(m: Nested<LiveVector>)
    reads Files(m)
  {
    forall d | d in m :: RowFiled(m[d], d)
  }

  ghost predicate RowFiled(row: map<string, LiveVector>, device: string)
    reads set n | n in row :: row[n]
  {
    forall n | n in row :: row[n].device == device && row[n].name == n && UniqueNames(row[n].elements)
  }

  lemma EmptyRow(device: string)
    ensures RowValues(map[]) == map[] && RowFiled(map[], device)
  {
  }

  lemma RowPut(row: map<string, LiveVector>, live: LiveVector)
    requires RowFiled(row, live.device) && UniqueNames(live.elements)
    ensures RowFiled(row[live.name := live], live.device)
    ensures RowValues(row[live.name := live]) == RowValues(row)[live.name := live.Value()]
  {
    hide UniqueNames, LiveVector.Value;
  }

  lemma ValuesPut(m: Nested<LiveVector>, live: LiveVector)
    requires Filed(m) && UniqueNames(live.elements)
    ensures Filed(Put(m, live.device, live.name, live))
    ensures Values(Put(m, live.device, live.name, live))
            == Put(Values(m), live.device, live.name, live.Value())
  {
    hide RowValues, RowFiled, UniqueNames, LiveVector.Value;
    var row := if live.device in m then m[live.device] else map[];
    EmptyRow(live.device);
    RowPut(row, live);
  }

  lemma SameKeys(row: map<string, LiveVector>, name: string)
    ensures RowValues(row).Keys == row.Keys
    ensures name !in row ==> row - {name} == row
  {
  }

  lemma ValuesDrop(m: Nested<LiveVector>, device: string, name: Option<string>)
    requires Filed(m)
    ensures Filed(Drop(m, device, name))
    ensures Values(Drop(m, device, name)) == Drop(Values(m), device, name)
  {
    if device in m && name.Some? {
      assert RowValues(m[device] - {name.value}) == RowValues(m[device]) - {name.value};
    }
  }

  class PyStore {
    var byDevice: Nested<LiveVector>

    constructor ()
      ensures Valid() && byDevice == map[] && Contents() == map[]
    {
      byDevice := map[];
    }

    ghost predicate Valid()
      reads this, Files(byDevice)
    {
      Filed(byDevice)
    }

    ghost function Contents(): Cache
      reads this, Files(byDevice)
    {
      Values(byDevice)
    }

    /** The vector object a message mutates in place, if there is one. */
    ghost function Target(msg: IndiMessage): set<LiveVector>
      reads this
    {
      if msg.SetVector? && Has(byDevice, msg.vector.device, msg.vector.name)
      then {byDevice[msg.vector.device][msg.vector.name]}
      else {}
    }

    /** Fold one message into the cache (src/indikit/client/store.py:171-197). */
    method Apply(msg: IndiMessage) returns (event: Option<PropertyEvent<LiveVector>>)
      requires Valid() && Admissible(Contents(), msg)
      modifies this, Target(msg)
      ensures Valid()
      ensures Contents() == Applied(old(Contents()), msg)
      ensures Resolved(event) == EventOf(old(Contents()), msg)
      ensures Refers(event, msg, old(byDevice), byDevice)
      ensures event.Some? && msg.DefVector? ==> fresh(event.value.vector.value)
    {
      event := None;
      match msg {
        case DefVector(v) =>
          event := Define(v);
        case SetVector(v, statePresent) =>
          if v.device in byDevice && v.name in byDevice[v.device] {
            event := Update(byDevice[v.device][v.name], v, statePresent);
          }
        case DelProperty(_, _, _, _) =>
          event := Delete(msg);
        case _ =>
      }
    }

    method Define(v: Vector) returns (event: Option<PropertyEvent<LiveVector>>)
      requires Valid() && UniqueNames(v.elements)
      modifies this
      ensures Valid()
      ensures Contents() == Put(old(Contents()), v.device, v.name, v)
      ensures event.Some? && event.value.vector.Some? && fresh(event.value.vector.value)
      ensures event.value.vector.value.Value() == v
      ensures event.value == PropertyEvent(Defined, v.device, Some(v.name), event.value.vector, None, None)
      ensures byDevice == Put(old(byDevice), v.device, v.name, event.value.vector.value)
    {
      hide Put, RowValues, RowFiled;
      ghost var before := Contents();
      var live := new LiveVector(v);
      assert Contents() == before;
      ValuesPut(byDevice, live);
      byDevice := Put(byDevice, v.device, v.name, live);
      event := Some(PropertyEvent(Defined, v.device, Some(v.name), Some(live), None, None));
    }

    method Update(cur: LiveVector, v: Vector, statePresent: bool)
      returns (event: Option<PropertyEvent<LiveVector>>)
      requires Valid() && UniqueNames(v.elements) && KindsMatch(cur.elements, v.elements)
      requires Has(byDevice, v.device, v.name) && cur == byDevice[v.device][v.name]
      modifies cur
      ensures Valid()
      ensures cur.Value() == MergeVector(old(cur.Value()), v, statePresent)
      ensures Contents() == Put(old(Contents()), v.device, v.name, cur.Value())
      ensures event == Some(PropertyEvent(Updated, v.device, Some(v.name), Some(cur), None, None))
    {
      ghost var before := Contents();
      cur.Merge(v, statePresent);
      MergeKeepsNames(before[v.device][v.name], v, statePresent);
      event := Some(PropertyEvent(Updated, cur.device, Some(cur.name), Some(cur), None, None));
      forall d | d in byDevice && d != v.device ensures RowValues(byDevice[d]) == before[d] {
        assert forall n | n in byDevice[d] :: byDevice[d][n] != cur;
      }
      assert RowValues(byDevice[v.device]) == before[v.device][v.name := cur.Value()];
    }

    /** A deletion, by name or of all a device has (src/indikit/client/store.py:199-229). */
    method Delete(msg: IndiMessage) returns (event: Option<PropertyEvent<LiveVector>>)
      requires Valid() && msg.DelProperty?
      modifies this
      ensures Valid()
      ensures Contents() == Drop(old(Contents()), msg.device, msg.name)
      ensures byDevice == Drop(old(byDevice), msg.device, msg.name)
      ensures Resolved(event) == EventOf(old(Contents()), msg)
    {
      hide RowValues, RowFiled, LiveVector.Value;
      ValuesDrop(byDevice, msg.device, msg.name);
      event := None;
      if msg.device in byDevice {
        if msg.name.None? {
          byDevice := byDevice - {msg.device};
          event := Some(PropertyEvent(Deleted, msg.device, None, None, msg.why, msg.timestamp));
        } else {
          var props := byDevice[msg.device];
          SameKeys(props, msg.name.value);
          if msg.name.value in props {
            byDevice := byDevice[msg.device := props - {msg.name.value}];
            event := Some(PropertyEvent(Deleted, msg.device, msg.name, None, msg.why, msg.timestamp));
          }
        }
      }
    }
  }

  lemma FiledIsWellFiled(store: PyStore)
    requires store.Valid()
    ensures WellFiled(store.Contents())
  {
    var c: Cache := store.Contents();
    forall d, n | Has(c, d, n) ensures c[d][n].device == d && c[d][n].name == n && UniqueNames(c[d][n].elements) {
      assert RowFiled(store.byDevice[d], d);
    }
  }

  /** How the objects filed before and after a message are related: a `set` files
      the object it mutated, a `def` the new one its event carries. */
  ghost predicate Refers(event: Option<PropertyEvent<LiveVector>>, msg: IndiMessage,
                         before: Nested<LiveVector>, after: Nested<LiveVector>)
  {
    match msg
    case DefVector(v) =>
      && event.Some? && event.value.vector.Some?
      && after == Put(before, v.device, v.name, event.value.vector.value)
    case SetVector(v, _) =>
      && after == before
      && (event.Some? <==> Has(before, v.device, v.name))
      && (event.Some? ==> event.value.vector == Some(before[v.device][v.name]))
    case DelProperty(device, name, _, _) => after == Drop(before, device, name)
    case _ => after == before
  }

  /** An event with the object it refers to read as the value it has now. */
  ghost function Resolved(event: Option<PropertyEvent<LiveVector>>): Option<PropertyEvent<Vector>>
    reads if event.Some? && event.value.vector.Some? then {event.value.vector.value} else {}
  {
    match event
    case None => None
    case Some(PropertyEvent(what, device, name, vector, message, timestamp)) =>
      Some(PropertyEvent(what, device, name,
                         if vector.Some? then Some(vector.value.Value()) else None,
                         message, timestamp))
  }

  lemma FilesOf(event: Option<PropertyEvent<LiveVector>>, msg: IndiMessage,
                before: Nested<LiveVector>, after: Nested<LiveVector>)
    requires Refers(event, msg, before, after)
    ensures forall f :: f in Files(after) ==>
              f in Files(before) || (msg.DefVector? && event.Some? && event.value.vector == Some(f))
  {
  }

  /** One message folded in, and the event as it read at the time. */
  method Fold(store: PyStore, msg: IndiMessage) returns (ghost event: Option<PropertyEvent<Vector>>)
    requires store.Valid() && Admissible(store.Contents(), msg)
    modifies store, store.Target(msg)
    ensures store.Valid() && store.Contents() == Applied(old(store.Contents()), msg)
    ensures event == EventOf(old(store.Contents()), msg)
    ensures forall f :: f in Files(store.byDevice) ==> f in old(Files(store.byDevice)) || fresh(f)
  {
    hide Applied, EventOf, Admissible;
    var told := store.Apply(msg);
    FilesOf(told, msg, old(store.byDevice), store.byDevice);
    event := Resolved(told);
  }
}
