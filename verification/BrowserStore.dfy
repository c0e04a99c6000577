/** The browser's store (web/packages/client/src/store.ts): immutable vectors, plus
    the cached snapshots React subscribes to by reference. It is proved against the
    same `Applied` and `EventOf` as the Python store. */
module BrowserStore {
  import opened Wire
  import opened Merge
  import opened Store

  // ------------------------------------------------------------------------ //
  // The order of JavaScript's default sort                                    //
  // ------------------------------------------------------------------------ //

  /** The code units of one character, a surrogate pair past the basic plane
      (section 2.1 of RFC 2781). */
  function UnitsOf(c: char): (units: seq<int>)
    ensures 1 <= |units| <= 2
  {
    var n := c as int;
    if n < 0x1_0000 then [n] else [0xD800 + (n - 0x1_0000) / 0x400, 0xDC00 + (n - 0x1_0000) % 0x400]
  }

  function Units(s: string): seq<int> {
    if s == [] then [] else UnitsOf(s[0]) + Units(s[1..])
  }

  /** A character past the basic plane is a high and then a low surrogate, which spell it. */
  lemma SurrogatesSpell(c: char)
    ensures c as int < 0x1_0000 ==> UnitsOf(c) == [c as int]
    ensures c as int >= 0x1_0000 ==>
              var units := UnitsOf(c);
              && |units| == 2 && 0xD800 <= units[0] < 0xDC00 && 0xDC00 <= units[1] < 0xE000
              && 0x1_0000 + 0x400 * (units[0] - 0xD800) + (units[1] - 0xDC00) == c as int
  {
  }

  predicate UnitsBefore(a: seq<int>, b: seq<int>) {
    if b == [] then false
    else if a == [] then true
    else a[0] < b[0] || (a[0] == b[0] && UnitsBefore(a[1..], b[1..]))
  }

  /** By code unit, a prefix first: not the order of the characters' own numbers. */
  predicate Before(a: string, b: string) {
    UnitsBefore(Units(a), Units(b))
  }

  /** Where two lists of code units first differ. */
  predicate SmallerAt(a: seq<int>, b: seq<int>, i: int) {
    0 <= i < |a| && i < |b| && a[..i] == b[..i] && a[i] < b[i]
  }

  /** One list is before another if and only if it begins the other, or its unit is the smaller
      where they first differ. */
  lemma {:induction false} UnitsBeforeExactly(a: seq<int>, b: seq<int>)
    ensures UnitsBefore(a, b) <==> a < b || exists i :: SmallerAt(a, b, i)
  {
    if a != [] && b != [] {
      UnitsBeforeExactly(a[1..], b[1..]);
      if a[0] < b[0] {
        assert SmallerAt(a, b, 0);
      } else if a[0] == b[0] {
        assert a == [a[0]] + a[1..] && b == [b[0]] + b[1..];
        if a[1..] < b[1..] {
          assert a < b;
        }
        forall i | SmallerAt(a[1..], b[1..], i) ensures SmallerAt(a, b, i + 1) {
          assert a[..i + 1] == [a[0]] + a[1..][..i] && b[..i + 1] == [b[0]] + b[1..][..i];
        }
        forall i | SmallerAt(a, b, i) ensures SmallerAt(a[1..], b[1..], i - 1) {
          assert a[1..][..i - 1] == a[..i][1..] && b[1..][..i - 1] == b[..i][1..];
        }
        if a < b {
          assert b[1..][..|a| - 1] == b[..|a|][1..];
        }
      } else {
        forall i ensures !SmallerAt(a, b, i) {
          assert 0 < i <= |a| && i <= |b| ==> a[..i][0] == a[0] && b[..i][0] == b[0];
        }
      }
    }
  }

  /** A character past the basic plane comes before the last ones of it, whose numbers are smaller. */
  lemma SurrogatesComeFirst()
    ensures Before("\U{1F52D}", "\U{FF21}") && !Before("\U{FF21}", "\U{1F52D}")
  {
    assert "\U{1F52D}"[1..] == "" && "\U{FF21}"[1..] == "";
    assert Units("\U{1F52D}") == [0xD83D, 0xDD2D] && Units("\U{FF21}") == [0xFF21];
  }

  lemma FirstUnits(c: char, d: char)
    requires UnitsOf(c)[0] == UnitsOf(d)[0]
    ensures |UnitsOf(c)| == |UnitsOf(d)|
    ensures UnitsOf(c) == UnitsOf(d) ==> c == d
  {
    if c as int < 0x1_0000 {
      assert !(0xD800 <= c as int < 0xE000);
    }
    if d as int < 0x1_0000 {
      assert !(0xD800 <= d as int < 0xE000);
    }
  }

  /** Different strings have different code units. */
  lemma {:induction false} UnitsInjective(a: string, b: string)
    requires Units(a) == Units(b)
    ensures a == b
  {
    hide UnitsOf;
    if a != [] && b != [] {
      assert Units(a)[0] == UnitsOf(a[0])[0] && Units(b)[0] == UnitsOf(b[0])[0];
      FirstUnits(a[0], b[0]);
      var n := |UnitsOf(a[0])|;
      assert Units(a)[..n] == UnitsOf(a[0]) && Units(b)[..n] == UnitsOf(b[0]);
      assert Units(a)[n..] == Units(a[1..]) && Units(b)[n..] == Units(b[1..]);
      UnitsInjective(a[1..], b[1..]);
      assert a == [a[0]] + a[1..] && b == [b[0]] + b[1..];
    }
  }

  lemma {:induction false} UnitsTransitive(a: seq<int>, b: seq<int>, c: seq<int>)
    requires UnitsBefore(a, b) && UnitsBefore(b, c)
    ensures UnitsBefore(a, c)
  {
    if a != [] && a[0] == b[0] && b[0] == c[0] {
      UnitsTransitive(a[1..], b[1..], c[1..]);
    }
  }

  lemma {:induction false} UnitsTotal(a: seq<int>, b: seq<int>)
    ensures a == b || UnitsBefore(a, b) || UnitsBefore(b, a)
  {
    if a != [] && b != [] && a[0] == b[0] {
      UnitsTotal(a[1..], b[1..]);
      assert a == [a[0]] + a[1..] && b == [b[0]] + b[1..];
    }
  }

  lemma {:induction false} UnitsIrreflexive(a: seq<int>)
    ensures !UnitsBefore(a, a)
  {
    if a != [] {
      UnitsIrreflexive(a[1..]);
    }
  }

  lemma BeforeTransitive(a: string, b: string, c: string)
    requires Before(a, b) && Before(b, c)
    ensures Before(a, c)
  {
    UnitsTransitive(Units(a), Units(b), Units(c));
  }

  lemma BeforeTotal(a: string, b: string)
    ensures a == b || Before(a, b) || Before(b, a)
  {
    if a != b && Units(a) == Units(b) {
      UnitsInjective(a, b);
    }
    UnitsTotal(Units(a), Units(b));
  }

  lemma BeforeIrreflexive(a: string)
    ensures !Before(a, a)
  {
    UnitsIrreflexive(Units(a));
  }

  /** `list` is the strictly ascending list of exactly the names in `names`. */
  ghost predicate SortedListOf(list: seq<string>, names: set<string>) {
    && (forall i, j :: 0 <= i < j < |list| ==> Before(list[i], list[j]))
    && (forall n :: n in list <==> n in names)
  }

  /** There is only one such list, so agreeing with the map pins the list down. */
  lemma {:induction false} SortedListUnique(xs: seq<string>, ys: seq<string>, names: set<string>)
    requires SortedListOf(xs, names) && SortedListOf(ys, names)
    ensures xs == ys
  {
    hide Before;
    assert (xs != [] ==> xs[0] in ys) && (ys != [] ==> ys[0] in xs);
    if xs != [] {
      var i :| 0 <= i < |ys| && ys[i] == xs[0];
      var j :| 0 <= j < |xs| && xs[j] == ys[0];
      if i > 0 && j > 0 {
        BeforeTransitive(xs[0], ys[0], xs[0]);
        BeforeIrreflexive(xs[0]);
      }
      assert xs[0] == ys[0];
      forall n ensures n in xs[1..] <==> n in names - {xs[0]} {
        TailNames(xs, n);
      }
      forall n ensures n in ys[1..] <==> n in names - {ys[0]} {
        TailNames(ys, n);
      }
      SortedListUnique(xs[1..], ys[1..], names - {xs[0]});
    }
  }

  lemma TailNames(list: seq<string>, n: string)
    requires list != [] && forall i, j :: 0 <= i < j < |list| ==> Before(list[i], list[j])
    ensures n in list[1..] <==> n in list && n != list[0]
  {
    hide Before;
    BeforeIrreflexive(list[0]);
    if n in list && n != list[0] {
      var k :| 0 <= k < |list| && list[k] == n;
      assert list[1..][k - 1] == n;
    }
  }

  /** Build the sorted list of a set of names. */
  method SortNames(names: set<string>) returns (list: seq<string>)
    ensures SortedListOf(list, names)
  {
    list := [];
    var rest := names;
    while rest != {}
      invariant rest <= names
      invariant SortedListOf(list, names - rest)
      decreases rest
    {
      var name :| name in rest;
      list := Insert(list, name, names - rest);
      rest := rest - {name};
      assert names - rest == names - (rest + {name}) + {name};
    }
  }

  method Insert(list: seq<string>, name: string, ghost names: set<string>) returns (r: seq<string>)
    requires SortedListOf(list, names) && name !in names
    ensures SortedListOf(r, names + {name})
  {
    hide Before;
    var i := 0;
    while i < |list| && Before(list[i], name)
      invariant 0 <= i <= |list|
      invariant forall k :: 0 <= k < i ==> Before(list[k], name)
    {
      i := i + 1;
    }
    forall k | i <= k < |list| ensures Before(name, list[k]) {
      BeforeTotal(name, list[i]);
      assert list[i] in list;
      if k > i {
        BeforeTransitive(name, list[i], list[k]);
      }
    }
    r := list[..i] + [name] + list[i..];
    assert list == list[..i] + list[i..];
  }

  /** One frozen view of a device, compared by reference. */
  class DeviceSnapshot {
    const properties: map<string, Vector>

    constructor (properties: map<string, Vector>)
      ensures this.properties == properties
    {
      this.properties := properties;
    }
  }

  /** The cached snapshots are of the devices there are, and say what the map says. */
  ghost predicate Snapshots(byDevice: Cache, snapshots: map<string, DeviceSnapshot>) {
    && snapshots.Keys == byDevice.Keys
    && forall d :: d in byDevice ==> snapshots[d].properties == byDevice[d]
  }

  lemma SnapshotsPut(byDevice: Cache, snapshots: map<string, DeviceSnapshot>, v: Vector, taken: DeviceSnapshot)
    requires Snapshots(byDevice, snapshots)
    requires v.device in Put(byDevice, v.device, v.name, v)
    requires taken.properties == Put(byDevice, v.device, v.name, v)[v.device]
    ensures Snapshots(Put(byDevice, v.device, v.name, v), snapshots[v.device := taken])
    ensures v.device in byDevice ==> Put(byDevice, v.device, v.name, v).Keys == byDevice.Keys
    ensures OnlyRefreshed(v.device, snapshots, snapshots[v.device := taken])
  {
  }

  class TsStore {
    var byDevice: Cache
    var deviceSnapshots: map<string, DeviceSnapshot>
    var deviceListSnapshot: seq<string>

    /** The cached snapshots and the device list always say what the map says. */
    ghost predicate Valid()
      reads this
    {
      && Snapshots(byDevice, deviceSnapshots)
      && SortedListOf(deviceListSnapshot, byDevice.Keys)
    }

    constructor ()
      ensures Valid() && byDevice == map[]
    {
      byDevice, deviceSnapshots, deviceListSnapshot := map[], map[], [];
    }

    /** Fold one message into the cache (web/packages/client/src/store.ts:153-174). */
    method Apply(msg: IndiMessage) returns (event: Option<PropertyEvent<Vector>>)
      requires Valid() && WellFiled(byDevice)
      modifies this
      ensures Valid()
      ensures byDevice == Applied(old(byDevice), msg)
      ensures event == EventOf(old(byDevice), msg)
      ensures event.None? ==> unchanged(this)
      ensures event.Some? ==> OnlyRefreshed(event.value.device, old(deviceSnapshots), deviceSnapshots)
      ensures byDevice.Keys == old(byDevice).Keys ==> deviceListSnapshot == old(deviceListSnapshot)
    {
      event := None;
      match msg {
        case DefVector(vector) =>
          PutVector(vector);
          event := Some(PropertyEvent(Defined, vector.device, Some(vector.name), Some(vector), None, None));
        case SetVector(vector, statePresent) =>
          if vector.device in byDevice && vector.name in byDevice[vector.device] {
            var merged := MergeVector(byDevice[vector.device][vector.name], vector, statePresent);
            PutVector(merged);
            event := Some(PropertyEvent(Updated, merged.device, Some(merged.name), Some(merged), None, None));
          }
        case DelProperty(_, _, _, _) =>
          event := Remove(msg);
        case _ =>
      }
    }

    /** File a vector; its device gets a new snapshot, and a new device a place in the list. */
    method PutVector(vector: Vector)
      requires Valid()
      modifies this
      ensures Valid()
      ensures byDevice == Put(old(byDevice), vector.device, vector.name, vector)
      ensures OnlyRefreshed(vector.device, old(deviceSnapshots), deviceSnapshots)
      ensures vector.device in old(byDevice) ==> deviceListSnapshot == old(deviceListSnapshot)
    {
      hide SortedListOf, Snapshots, OnlyRefreshed;
      var isNewDevice := vector.device !in byDevice;
      byDevice := Put(byDevice, vector.device, vector.name, vector);
      RefreshDeviceSnapshot(vector.device);
      SnapshotsPut(old(byDevice), old(deviceSnapshots), vector, deviceSnapshots[vector.device]);
      if isNewDevice {
        deviceListSnapshot := SortNames(byDevice.Keys);
      }
    }

    /** A deletion, by name or of all a device has (web/packages/client/src/store.ts:200-228). */
    method Remove(msg: IndiMessage) returns (event: Option<PropertyEvent<Vector>>)
      requires Valid() && msg.DelProperty?
      modifies this
      ensures Valid()
      ensures byDevice == Drop(old(byDevice), msg.device, msg.name)
      ensures event == EventOf(old(byDevice), msg)
      ensures event.None? ==> unchanged(this)
      ensures event.Some? ==> OnlyRefreshed(msg.device, old(deviceSnapshots), deviceSnapshots)
      ensures byDevice.Keys == old(byDevice).Keys ==> deviceListSnapshot == old(deviceListSnapshot)
    {
      hide SortedListOf;
      event := None;
      if msg.device !in byDevice {
        return;
      }
      if msg.name.None? {
        byDevice := byDevice - {msg.device};
        assert msg.device in old(byDevice).Keys && msg.device !in byDevice.Keys;
        deviceSnapshots := deviceSnapshots - {msg.device};
        deviceListSnapshot := SortNames(byDevice.Keys);
        return Some(PropertyEvent(Deleted, msg.device, None, None, msg.why, msg.timestamp));
      }
      var props := byDevice[msg.device];
      if msg.name.value !in props {
        assert props - {msg.name.value} == props;
        return;
      }
      byDevice := byDevice[msg.device := props - {msg.name.value}];
      assert byDevice.Keys == old(byDevice).Keys;
      RefreshDeviceSnapshot(msg.device);
      event := Some(PropertyEvent(Deleted, msg.device, msg.name, None, msg.why, msg.timestamp));
    }

    method RefreshDeviceSnapshot(device: string)
      requires device in byDevice
      modifies this`deviceSnapshots
      ensures device in deviceSnapshots && fresh(deviceSnapshots[device])
      ensures deviceSnapshots == old(deviceSnapshots)[device := deviceSnapshots[device]]
      ensures deviceSnapshots[device].properties == byDevice[device]
    {
      var snapshot := new DeviceSnapshot(byDevice[device]);
      deviceSnapshots := deviceSnapshots[device := snapshot];
    }
  }

  /** Every device but one keeps the very snapshot object it had. */
  ghost predicate OnlyRefreshed(device: string, before: map<string, DeviceSnapshot>,
                                after: map<string, DeviceSnapshot>)
  {
    forall d :: d in before && d != device ==> d in after && after[d] == before[d]
  }

  // ------------------------------------------------------------------------ //
  // The two stores together                                                   //
  // ------------------------------------------------------------------------ //

  /** One message folded into both, to the same map and with the same event. */
  method ApplyBoth(py: PyStore, ts: TsStore, msg: IndiMessage) returns (ghost event: Option<PropertyEvent<Vector>>)
    requires py.Valid() && ts.Valid() && py.Contents() == ts.byDevice && Admissible(ts.byDevice, msg)
    modifies py, py.Target(msg), ts
    ensures py.Valid() && ts.Valid() && py.Contents() == ts.byDevice == Applied(old(ts.byDevice), msg)
    ensures event == EventOf(old(ts.byDevice), msg)
    ensures forall f :: f in Files(py.byDevice) ==> f in old(Files(py.byDevice)) || fresh(f)
  {
    hide Applied, EventOf, Admissible, Filed, Values, WellFiled;
    FiledIsWellFiled(py);
    event := Fold(py, msg);
    ghost var files: set<object> := Files(py.byDevice);
    assert ts !in files;
    var tsEvent := ts.Apply(msg);
    assert tsEvent == event;
  }

  /** The events a sequence of messages gives rise to. */
  function Events(c: Cache, msgs: seq<IndiMessage>): seq<Option<PropertyEvent<Vector>>>
    decreases |msgs|
  {
    if msgs == [] then [] else [EventOf(c, msgs[0])] + Events(Applied(c, msgs[0]), msgs[1..])
  }

  lemma EventsNext(c: Cache, msgs: seq<IndiMessage>, i: nat, events: seq<Option<PropertyEvent<Vector>>>)
    requires i < |msgs|
    ensures events + Events(c, msgs[i..]) == (events + [EventOf(c, msgs[i])]) + Events(Applied(c, msgs[i]), msgs[i + 1..])
  {
    hide EventOf, Applied;
    assert msgs[i..][1..] == msgs[i + 1..];
  }

  lemma AdmissibleNext(c: Cache, msgs: seq<IndiMessage>, i: nat)
    requires i < |msgs| && AllAdmissible(c, msgs[i..])
    ensures Admissible(c, msgs[i]) && AllAdmissible(Applied(c, msgs[i]), msgs[i + 1..])
  {
    hide Admissible, Applied;
    assert msgs[i..][1..] == msgs[i + 1..];
  }

  /** For every sequence of messages the in-place store and the immutable one reach the
      same map, through the same events. */
  method StoresAgree(msgs: seq<IndiMessage>)
    returns (py: PyStore, ts: TsStore, ghost events: seq<Option<PropertyEvent<Vector>>>)
    requires AllAdmissible(map[], msgs)
    ensures py.Valid() && ts.Valid() && py.Contents() == ts.byDevice == AppliedAll(map[], msgs)
    ensures events == Events(map[], msgs)
  {
    hide Applied, EventOf, Admissible, AllAdmissible, Filed, SortedListOf, Events;
    py := new PyStore();
    ts := new TsStore();
    events := [];
    var i := 0;
    assert msgs[0..] == msgs && msgs[..0] == [] && [] + Events(map[], msgs) == Events(map[], msgs);
    while i < |msgs|
      invariant 0 <= i <= |msgs| && fresh(py) && fresh(ts)
      invariant py.Valid() && ts.Valid() && py.Contents() == ts.byDevice == AppliedAll(map[], msgs[..i])
      invariant AllAdmissible(ts.byDevice, msgs[i..])
      invariant forall f :: f in Files(py.byDevice) ==> fresh(f)
      invariant events + Events(ts.byDevice, msgs[i..]) == Events(map[], msgs)
    {
      assert msgs[..i + 1][..i] == msgs[..i];
      AdmissibleNext(ts.byDevice, msgs, i);
      EventsNext(ts.byDevice, msgs, i, events);
      assert forall f :: f in py.Target(msgs[i]) ==> f in Files(py.byDevice);
      ghost var event := ApplyBoth(py, ts, msgs[i]);
      events := events + [event];
      i := i + 1;
    }
    assert msgs[..i] == msgs && msgs[i..] == [];
    NoEvents(ts.byDevice, events);
  }

  lemma NoEvents(c: Cache, events: seq<Option<PropertyEvent<Vector>>>)
    ensures events + Events(c, []) == events
  {
  }
}
