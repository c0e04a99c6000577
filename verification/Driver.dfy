/** A driver's device: the registry of its properties, the saved configuration and the
    stream its clients fold (src/indikit/driver/device.py). The invariant `Valid` and the
    predicates beside it are the safety claims: whatever a driver defines, updates,
    withdraws, rolls back, saves or loads, a client that folded the stream holds exactly
    the registry, each vector as its policy shows it. */
module Driver {
  import opened Wire
  import opened Merge
  import opened Store
  import opened Property
  import opened Handle
  import PersistedList

  const CONFIG_PROCESS := "CONFIG_PROCESS"
  const CONFIG_PERSISTED := "INDIKIT_CONFIG_PERSISTED"
  const PROPERTIES := "PROPERTIES"

  type Saved = seq<(string, Value)>

  // ------------------------------------------------------------------------ //
  // One device's row of a client's cache                                      //
  // ------------------------------------------------------------------------ //

  function Row(c: Cache, device: string): map<string, Vector> {
    if device in c then c[device] else map[]
  }

  lemma RowDef(c: Cache, v: Vector)
    ensures Row(Applied(c, DefVector(v)), v.device) == Row(c, v.device)[v.name := v]
  {
  }

  lemma RowSet(c: Cache, v: Vector)
    requires v.name in Row(c, v.device)
    ensures Row(Applied(c, SetVector(v, true)), v.device)
            == Row(c, v.device)[v.name := MergeVector(Row(c, v.device)[v.name], v, true)]
  {
  }

  lemma RowSetAny(c: Cache, v: Vector)
    ensures Row(Applied(c, SetVector(v, true)), v.device)
            == if v.name in Row(c, v.device)
               then Row(c, v.device)[v.name := MergeVector(Row(c, v.device)[v.name], v, true)] else Row(c, v.device)
  {
  }

  lemma RowDel(c: Cache, device: string, name: string, time: Option<int>, why: Option<string>)
    ensures Row(Applied(c, DelProperty(device, Some(name), time, why)), device) == Row(c, device) - {name}
  {
    if device !in c {
      var empty: map<string, Vector> := map[];
      assert empty - {name} == empty;
    }
  }

  lemma PrecedesSame(a: Vector, b: Vector)
    requires Precedes(a, b)
    ensures a.device == b.device && a.name == b.name && a.kind == b.kind && (IsList(a) ==> IsList(b))
  {
    if |a.elements| == 1 {
      assert ElementPrecedes(a.elements[0], b.elements[0]);
    }
  }

  /** What publishing an update does to what the client holds of the property. */
  lemma PublishedShows(told: Vector, before: Vector, written: Vector, policy: Policy, force: bool,
                       time: int, render: Render)
    requires Precedes(told, before) && Precedes(before, written) && WellFormed(written)
    ensures var emits := Emits(policy, force, before, written, render);
            var after := if emits then Stamped(written, time) else written;
            var shown := if emits then MergeVector(told, after, true) else told;
            && Precedes(shown, after) && WellFormed(after)
            && (emits ==> shown == after)
            && (Shows(told, before, policy, render) || policy == Always ==> Shows(shown, after, policy, render))
  {
    hide SnapshotOf, WellFormed, Precedes, MergeVector;
    PrecedesTransitive(told, before, written);
    StampedShows(told, written, time, policy, render);
    PrecedesReflexive(Stamped(written, time));
  }

  lemma SeenPut(row: map<string, Vector>, n: string, v: Vector)
    ensures n != CONFIG_PERSISTED ==> row[n := v] - {CONFIG_PERSISTED} == (row - {CONFIG_PERSISTED})[n := v]
    ensures n == CONFIG_PERSISTED ==> row[n := v] - {CONFIG_PERSISTED} == row - {CONFIG_PERSISTED}
    ensures n != CONFIG_PERSISTED && n in row ==>
              n in row - {CONFIG_PERSISTED} && (row - {CONFIG_PERSISTED})[n] == row[n]
  {
  }

  lemma SeenDrop(row: map<string, Vector>, n: string)
    ensures (row - {n}) - {CONFIG_PERSISTED} == (row - {CONFIG_PERSISTED}) - {n}
  {
  }

  /** A client that was not told what an update wrote is still shown the vector exactly
      if what was written shows as what was there before. */
  lemma RaisedShows(told: Vector, before: Vector, written: Vector, policy: Policy, render: Render)
    requires Shows(told, before, policy, render)
    ensures Shows(told, written, policy, render) <==> Shows(before, written, policy, render)
  {
  }

  // ------------------------------------------------------------------------ //
  // The list of saved properties                                              //
  // ------------------------------------------------------------------------ //

  predicate IsList(v: Vector) {
    v.kind == TextKind && |v.elements| == 1 && v.elements[0].Text? && v.elements[0].name == PROPERTIES
  }

  function ListText(v: Vector): string {
    if |v.elements| > 0 && v.elements[0].Text? then v.elements[0].text else ""
  }

  /** A client's list of saved properties names only properties it holds. */
  predicate Honest(row: map<string, Vector>) {
    CONFIG_PERSISTED in row ==>
      forall w :: w in PersistedList.Words(ListText(row[CONFIG_PERSISTED])) ==> w in row
  }

  lemma SameShownList(told: Vector, live: Vector, render: Render)
    requires IsList(live) && Precedes(told, live) && Shows(told, live, OnChange, render)
    ensures ListText(told) == ListText(live)
  {
    assert ElementPrecedes(told.elements[0], live.elements[0]);
    assert SnapshotOf(told, render).values[0] == SnapshotOf(live, render).values[0];
  }

  /** A list stays honest while the client's properties only grow. */
  lemma HonestGrows(row: map<string, Vector>, next: map<string, Vector>)
    requires Honest(row) && row.Keys <= next.Keys
    requires CONFIG_PERSISTED in next ==> CONFIG_PERSISTED in row
    requires CONFIG_PERSISTED in next ==> ListText(next[CONFIG_PERSISTED]) == ListText(row[CONFIG_PERSISTED])
    ensures Honest(next)
  {
  }

  /** The stream a client folded grew by no message or by one. */
  predicate Grew(before: seq<Cache>, after: seq<Cache>) {
    after == before || (|before| > 0 && |after| == |before| + 1 && after[..|before|] == before)
  }

  /** A client that was told the list of these names holds an honest list. */
  lemma ListIsHonest(row: map<string, Vector>, names: seq<string>)
    requires CONFIG_PERSISTED in row ==> ListText(row[CONFIG_PERSISTED]) == PersistedList.Join(names)
    requires forall n :: n in names ==> n in row && PersistedList.NoSpace(n)
    ensures Honest(row)
  {
    PersistedList.WordsOfJoin(names);
  }

  /** A list that states these names is honest exactly when the client holds every one
      of them: one left stale by a redefinition that dropped `persist` misleads as soon
      as the property goes. */
  lemma StaleListMisleads(row: map<string, Vector>, names: seq<string>)
    requires CONFIG_PERSISTED in row && ListText(row[CONFIG_PERSISTED]) == PersistedList.Join(names)
    requires forall n :: n in names ==> PersistedList.NoSpace(n)
    ensures Honest(row) <==> forall n :: n in names && n != "" ==> n in row
  {
    PersistedList.WordsOfJoin(names);
  }

  // ------------------------------------------------------------------------ //
  // An ordered dictionary's keys                                              //
  // ------------------------------------------------------------------------ //

  predicate Distinct(names: seq<string>) {
    forall i, j :: 0 <= i < j < |names| ==> names[i] != names[j]
  }

  ghost predicate Orders<V>(names: seq<string>, m: map<string, V>) {
    Distinct(names) && forall n :: n in names <==> n in m
  }

  function Without(names: seq<string>, name: string): (r: seq<string>)
    ensures forall n :: n in r <==> n in names && n != name
    ensures Distinct(names) ==> Distinct(r)
  {
    if names == [] then []
    else
      var rest := Without(names[1..], name);
      assert names == [names[0]] + names[1..];
      assert Distinct(names) ==> Distinct(names[1..]) && names[0] !in names[1..];
      if names[0] == name then rest else [names[0]] + rest
  }

  /** The names that satisfy a condition, in order. */
  function Those(names: seq<string>, keep: set<string>): (r: seq<string>)
    ensures forall n :: n in r <==> n in names && n in keep
    ensures Distinct(names) ==> Distinct(r)
  {
    if names == [] then []
    else
      var rest := Those(names[1..], keep);
      assert names == [names[0]] + names[1..];
      assert Distinct(names) ==> Distinct(names[1..]) && names[0] !in names[1..];
      if names[0] in keep then [names[0]] + rest else rest
  }

  /** The names the list of saved properties should state. */
  function Kept(names: seq<string>, properties: map<string, BoundProperty>): (r: seq<string>)
    ensures forall n :: n in r <==> n in names && n in properties && properties[n].persist
  {
    if names == [] then []
    else
      var rest := Kept(names[1..], properties);
      assert names == [names[0]] + names[1..];
      if names[0] in properties && properties[names[0]].persist then [names[0]] + rest else rest
  }

  lemma {:induction false} KeptAgrees(names: seq<string>, p: map<string, BoundProperty>, q: map<string, BoundProperty>)
    requires forall n :: n in names ==> n in p && n in q && p[n].persist == q[n].persist
    ensures Kept(names, p) == Kept(names, q)
  {
    if names != [] {
      KeptAgrees(names[1..], p, q);
    }
  }

  lemma {:induction false} KeptSnoc(names: seq<string>, name: string, p: map<string, BoundProperty>)
    requires forall n :: n in names + [name] ==> n in p
    requires !p[name].persist
    ensures Kept(names + [name], p) == Kept(names, p)
  {
    if names == [] {
      assert [] + [name] == [name];
      assert [name][1..] == [];
    } else {
      assert (names + [name])[1..] == names[1..] + [name];
      KeptSnoc(names[1..], name, p);
    }
  }

  lemma {:induction false} KeptWithout(names: seq<string>, name: string, p: map<string, BoundProperty>)
    requires forall n :: n in names ==> n in p
    requires name in p ==> !p[name].persist
    ensures Kept(Without(names, name), p) == Kept(names, p)
  {
    if names != [] {
      KeptWithout(names[1..], name, p);
      if names[0] != name {
        var rest := Without(names[1..], name);
        assert Without(names, name) == [names[0]] + rest;
        assert ([names[0]] + rest)[1..] == rest;
      }
    }
  }

  // ------------------------------------------------------------------------ //
  // The device                                                                //
  // ------------------------------------------------------------------------ //

  class Device {
    const device: string
    const outbox: Outbox
    const render: Render
    const show: real -> string
    var names: seq<string>
    var properties: map<string, BoundProperty>
    var config: map<string, Saved>
    var setupDone: bool

    constructor (device: string, outbox: Outbox, render: Render, show: real -> string)
      requires outbox.Valid() && outbox.sent == []
      ensures Valid() && AllHonest() && properties == map[] && names == [] && config == map[] && !setupDone
      ensures this.device == device && this.outbox == outbox && this.render == render && this.show == show
    {
      this.device, this.outbox, this.render, this.show := device, outbox, render, show;
      names, properties, config, setupDone := [], map[], map[], false;
    }

    ghost function Handles(): set<BoundProperty>
      reads this`properties
    {
      set n | n in properties :: properties[n]
    }

    function At(n: string): BoundProperty
      requires n in properties
      reads this`properties
    {
      properties[n]
    }

    /** The handle of the list of saved properties, once it is published. */
    ghost function ListHandle(): set<BoundProperty>
      reads this`properties
    {
      if CONFIG_PERSISTED in properties then {properties[CONFIG_PERSISTED]} else {}
    }

    /** What a client that folded the stream holds of this device. */
    ghost function Told(): map<string, Vector>
      reads outbox
    {
      Row(outbox.Told(), device)
    }

    /** The same but for the list of saved properties. */
    ghost function Seen(): map<string, Vector>
      reads outbox
    {
      Told() - {CONFIG_PERSISTED}
    }

    /** The text of the list of saved properties, if it is published. */
    ghost function Stated(): Option<string>
      reads this`properties, Handles()
    {
      if CONFIG_PERSISTED in properties then Some(ListText(properties[CONFIG_PERSISTED].vector)) else None
    }

    /** A registered handle is this device's. */
    ghost predicate OwnedAt(n: string)
      reads this`properties, Handles()
    {
      n in properties &&
      var p := properties[n];
      && p.outbox == outbox && p.render == render
      && p.vector.name == n && p.vector.device == device && WellFormed(p.vector)
      && (p.persist ==> PersistedList.NoSpace(n) && Persistable(p.vector.kind))
    }

    /** A registered handle is this device's, and its vector a later state of the one
        the client was told. */
    ghost predicate RegisteredAt(n: string)
      reads this`properties, outbox, Handles()
    {
      n in properties ==> OwnedAt(n) && n in Told() && Precedes(Told()[n], properties[n].vector)
    }

    /** The client's vector shows what the registered handle holds. */
    ghost predicate InStep(n: string)
      reads this`properties, outbox, Handles()
    {
      n in properties && n in Told() && Shows(Told()[n], properties[n].vector, properties[n].policy, render)
    }

    ghost predicate AliveAt(n: string, dying: set<BoundProperty>)
      reads this`properties, Handles()
    {
      n in properties && properties[n] !in dying ==> !properties[n].retracted
    }

    /** The property that lists the saved ones is the device's own. */
    ghost predicate ListKept()
      reads this`properties, this`setupDone, outbox, Handles()
    {
      CONFIG_PERSISTED in properties ==>
        var p := properties[CONFIG_PERSISTED];
        && setupDone && p.policy == OnChange && !p.persist && IsList(p.vector)
        && InStep(CONFIG_PERSISTED)
    }

    /** The registry is well formed, and the client holds it and the names in `gone`. */
    ghost predicate ValidWith(gone: set<string>, dying: set<BoundProperty>)
      reads this`properties, this`names, this`setupDone, outbox, Handles()
    {
      && outbox.Valid() && Orders(names, properties)
      && (forall n :: RegisteredAt(n)) && (forall n :: AliveAt(n, dying)) && ListKept()
      && Told().Keys == properties.Keys + gone
    }

    ghost predicate Valid()
      reads this`properties, this`names, this`setupDone, outbox, Handles()
    {
      ValidWith({}, {})
    }

    /** Every registered property is shown to the client as it is. */
    ghost predicate AllInStep()
      reads this`properties, outbox, Handles()
    {
      forall n :: n in properties ==> InStep(n)
    }

    /** The published list is exactly the persisted names. */
    ghost predicate ListIsExact()
      reads this`properties, this`names, Handles()
    {
      CONFIG_PERSISTED in properties ==>
        ListText(properties[CONFIG_PERSISTED].vector) == PersistedList.Join(Kept(names, properties))
    }

    /** At no prefix of the stream does a client hold a list that names a property it
        does not hold. */
    ghost predicate AllHonest()
      reads outbox
    {
      forall i :: 0 <= i < |outbox.caches| ==> Honest(Row(outbox.caches[i], device))
    }

    /** Any update through a registered handle (src/indikit/driver/property.py). */
    method Push(n: string, edit: Edit, ghost gone: set<string>, time: int)
      returns (fault: Option<Fault>, rejected: seq<string>)
      requires ValidWith(gone, {}) && n in properties
      requires n == CONFIG_PERSISTED ==> Edited(properties[n].vector, edit).1.None?
      modifies outbox, At(n)`vector
      ensures ValidWith(gone, {})
      ensures properties[n].Performed(old(properties[n].vector), old(outbox.sent), old(outbox.caches), edit, time, fault)
      ensures forall m :: m != n ==> InStep(m) == old(InStep(m))
      ensures fault.None? && (old(InStep(n)) || properties[n].policy == Always) ==> InStep(n)
      ensures rejected == RefusedBy(old(properties[n].vector), edit)
      ensures n in old(Told()) && fault == Edited(old(properties[n].vector), edit).1
      ensures Grew(old(outbox.caches), outbox.caches)
      ensures var (after, told) := Pushed(properties[n].policy, old(properties[n].vector), old(Told())[n], edit, time, render);
              properties[n].vector == after && Told() == old(Told())[n := told]
    {
      hide CONFIG_PERSISTED, Orders, Distinct, Row, Persistable, Noted, IsList, Precedes, WellFormed, SnapshotOf, Shows,
           MergeVector, PersistedList.NoSpace, Applied, AppliedAll, Emits, Stamped, Edited;
      var prop := properties[n];
      ghost var before, row, cache := prop.vector, Told(), outbox.Told();
      assert RegisteredAt(n) && AliveAt(n, {});
      assert Others(n) by { Distinguish(n); }
      fault, rejected := prop.Perform(edit, time);
      EditedKeeps(before, edit);
      PrecedesSame(before, prop.vector);
      if fault.None? {
        PublishedShows(row[n], before, Edited(before, edit).0, prop.policy, edit.Forced(), time, render);
        if Emits(prop.policy, edit.Forced(), before, Edited(before, edit).0, render) {
          RowSet(cache, prop.vector);
          assert Told() == row[n := MergeVector(row[n], prop.vector, true)];
        }
      } else {
        PrecedesTransitive(row[n], before, prop.vector);
      }
      assert Told() == row[n := Told()[n]];
      if n == CONFIG_PERSISTED {
        assert InStep(n) && IsList(prop.vector);
      }
      forall m ensures RegisteredAt(m) && AliveAt(m, {}) && (m != n ==> InStep(m) == old(InStep(m))) {
        assert old(RegisteredAt(m)) && old(AliveAt(m, {}));
      }
    }

    ghost predicate Others(n: string)
      reads this`properties
    {
      n in properties && forall m :: m in properties && m != n ==> properties[m] != properties[n]
    }

    lemma Distinguish(n: string)
      requires (forall m :: RegisteredAt(m)) && n in properties
      ensures Others(n)
    {
      assert RegisteredAt(n);
      forall m | m in properties && m != n ensures properties[m] != properties[n] {
        assert RegisteredAt(m);
      }
    }

    /** `BoundProperty.set`, `set_all` and `select` on a registered handle: one that
        raises leaves the client behind exactly when it had written something. */
    method Update(n: string, edit: Edit, time: int) returns (fault: Option<Fault>, rejected: seq<string>)
      requires Valid() && n in properties && n != CONFIG_PERSISTED
      modifies outbox, At(n)`vector
      ensures Valid() && AllHonest() == old(AllHonest()) && ListIsExact() == old(ListIsExact())
      ensures properties[n].Performed(old(properties[n].vector), old(outbox.sent), old(outbox.caches), edit, time, fault)
      ensures fault == Edited(old(properties[n].vector), edit).1
      ensures rejected == RefusedBy(old(properties[n].vector), edit)
      ensures forall m :: m != n ==> InStep(m) == old(InStep(m))
      ensures fault.None? && (old(InStep(n)) || properties[n].policy == Always) ==> InStep(n)
      ensures fault.Some? && old(InStep(n)) ==>
                (InStep(n) <==> Shows(old(properties[n].vector), Edited(old(properties[n].vector), edit).0,
                                      properties[n].policy, render))
      ensures n in old(Seen()) && Stated() == old(Stated())
      ensures var (after, told) := Pushed(properties[n].policy, old(properties[n].vector), old(Seen())[n], edit, time, render);
              properties[n].vector == after && Seen() == old(Seen())[n := told]
    {
      hide CONFIG_PERSISTED, Orders, Distinct, IsList, Precedes, WellFormed, SnapshotOf, MergeVector,
           PersistedList.NoSpace, PersistedList.Join, Applied, AppliedAll, Emits, Stamped, Edited, Honest,
           Row, ListKept, Kept, ListText, BoundProperty.Performed;
      ghost var row, caches, before := Told(), outbox.caches, properties[n].vector;
      ListStands(n);
      assert RegisteredAt(n) && AliveAt(n, {});
      fault, rejected := Push(n, edit, {}, time);
      SeenPut(row, n, Told()[n]);
      if fault.Some? && old(InStep(n)) {
        RaisedShows(row[n], before, Edited(before, edit).0, properties[n].policy, render);
      }
      if old(AllHonest()) {
        UpdateHonestly(n, row, caches);
      } else {
        StaysMisled(caches);
      }
    }

    /** Any update through a handle that a later definition of its name replaced, and that
        was never withdrawn: it goes out all the same, and the client merges it onto what it
        holds of the newer definition. That client stays in step exactly when nothing goes
        out, or what it then holds shows as the newer vector does. */
    method UpdateSuperseded(stale: BoundProperty, edit: Edit, time: int) returns (fault: Option<Fault>)
      requires Valid() && stale !in Handles() && !stale.retracted && WellFormed(stale.vector)
      requires stale.outbox == outbox && stale.render == render && stale.vector.device == device
      modifies outbox, stale`vector
      ensures fault == Edited(old(stale.vector), edit).1 && outbox.Valid()
      ensures stale.vector == Pushed(stale.policy, old(stale.vector), old(stale.vector), edit, time, render).0
      ensures stale.vector.name == old(stale.vector).name
      ensures var n := stale.vector.name;
              Told() == if SendsFrom(stale.policy, old(stale.vector), edit) && n in old(Told())
                        then old(Told())[n := MergeVector(old(Told())[n], stale.vector, true)] else old(Told())
      ensures var n := stale.vector.name;
              n in properties && old(InStep(n)) ==>
                (InStep(n) <==>
                   || !SendsFrom(stale.policy, old(stale.vector), edit)
                   || Shows(MergeVector(old(Told())[n], stale.vector, true), properties[n].vector,
                            properties[n].policy, render))
      ensures forall m :: m != stale.vector.name ==> InStep(m) == old(InStep(m))
    {
      hide CONFIG_PERSISTED, Orders, Distinct, Persistable, Noted, IsList, Precedes, WellFormed, SnapshotOf, Shows,
           MergeVector, PersistedList.NoSpace, AppliedAll, Emits, Stamped, Edited, Row, Applied, ListKept;
      ghost var before, n, cache, row := stale.vector, stale.vector.name, outbox.Told(), Told();
      EditedKeeps(before, edit);
      var rejected;
      fault, rejected := stale.Perform(edit, time);
      PrecedesSame(before, stale.vector);
      if SendsFrom(stale.policy, before, edit) {
        RowSetAny(cache, stale.vector);
      }
      forall m | m in properties ensures properties[m].vector == old(properties[m].vector) {
        assert properties[m] in Handles();
      }
    }

    /** Whether an edit of a vector goes out. */
    ghost predicate SendsFrom(policy: Policy, before: Vector, edit: Edit) {
      Edited(before, edit).1.None? && Emits(policy, edit.Forced(), before, Edited(before, edit).0, render)
    }

    /** The client holds the text of the list as it is. */
    lemma ListIsTold()
      requires Valid() && CONFIG_PERSISTED in properties
      ensures CONFIG_PERSISTED in Told() && Stated() == Some(ListText(Told()[CONFIG_PERSISTED]))
      ensures !properties[CONFIG_PERSISTED].persist
    {
      assert RegisteredAt(CONFIG_PERSISTED);
      SameShownList(Told()[CONFIG_PERSISTED], properties[CONFIG_PERSISTED].vector, render);
    }

    lemma ToldIsRegistered()
      requires Valid()
      ensures Told().Keys == properties.Keys
    {
      assert Told().Keys == properties.Keys + {};
    }

    lemma NoListTold()
      requires Valid() && CONFIG_PERSISTED !in properties
      ensures Honest(Told())
    {
    }

    lemma Apart(n: string)
      requires Valid() && n in properties
      ensures Others(n)
    {
      Distinguish(n);
    }

    lemma AllUnderTheirNames()
      requires Valid()
      ensures forall n :: n in properties ==> properties[n].vector.name == n
    {
      forall n | n in properties ensures properties[n].vector.name == n {
        assert RegisteredAt(n);
      }
    }

    lemma SeenWhereTold(n: string)
      requires n != CONFIG_PERSISTED && n in Told()
      ensures n in Seen() && Seen()[n] == Told()[n]
    {
    }

    lemma RegisteredUnderItsName(n: string)
      requires Valid() && n in properties
      ensures properties[n].vector.name == n
    {
      assert RegisteredAt(n);
    }

    /** Updating a property leaves the list's handle alone. */
    lemma ListStands(n: string)
      requires (forall m :: RegisteredAt(m)) && n in properties && n != CONFIG_PERSISTED
      ensures CONFIG_PERSISTED in properties ==> properties[CONFIG_PERSISTED] != properties[n]
    {
      Distinguish(n);
    }

    lemma UpdateHonestly(n: string, row: map<string, Vector>, caches: seq<Cache>)
      requires outbox.Valid() && Grew(caches, outbox.caches) && |caches| > 0 && row == Row(caches[|caches| - 1], device)
      requires forall i :: 0 <= i < |caches| ==> Honest(Row(caches[i], device))
      requires n != CONFIG_PERSISTED && n in row && n in Told() && Told() == row[n := Told()[n]]
      ensures AllHonest()
    {
      StaysHonest(row, caches);
    }

    /** A client that was once misled was misled at that prefix for good. */
    lemma StaysMisled(caches: seq<Cache>)
      requires Grew(caches, outbox.caches) && !(forall i :: 0 <= i < |caches| ==> Honest(Row(caches[i], device)))
      ensures !AllHonest()
    {
      hide Honest, Row;
      var i :| 0 <= i < |caches| && !Honest(Row(caches[i], device));
      assert outbox.caches[i] == caches[i];
    }

    /** Where no prefix misleads, neither does the whole stream. */
    lemma HonestNow()
      requires outbox.Valid() && AllHonest()
      ensures Honest(Told())
    {
      hide Honest, Row;
    }

    lemma HonestSoFar(caches: seq<Cache>)
      requires outbox.Valid() && Grew(caches, outbox.caches) && Honest(Told())
      requires forall i :: 0 <= i < |caches| ==> Honest(Row(caches[i], device))
      ensures AllHonest()
    {
      hide Honest, Row;
      forall i | 0 <= i < |outbox.caches| ensures Honest(Row(outbox.caches[i], device)) {
        if i < |caches| {
          assert outbox.caches[i] == caches[i];
        }
      }
    }

    lemma StaysHonest(row: map<string, Vector>, caches: seq<Cache>)
      requires outbox.Valid() && Grew(caches, outbox.caches) && |caches| > 0 && row == Row(caches[|caches| - 1], device)
      requires forall i :: 0 <= i < |caches| ==> Honest(Row(caches[i], device))
      requires row.Keys <= Told().Keys && (CONFIG_PERSISTED in Told() ==> CONFIG_PERSISTED in row)
      requires CONFIG_PERSISTED in Told() ==> ListText(Told()[CONFIG_PERSISTED]) == ListText(row[CONFIG_PERSISTED])
      ensures AllHonest()
    {
      hide Honest, Row, CONFIG_PERSISTED, ListText;
      HonestGrows(row, Told());
      HonestSoFar(caches);
    }

    /** The client holds every persisted property, and no name of one has white space. */
    lemma KeptAreTold()
      requires Orders(names, properties) && (forall n :: RegisteredAt(n))
      ensures forall n :: n in Kept(names, properties) ==> n in Told() && PersistedList.NoSpace(n)
    {
      hide Row, Precedes, WellFormed, Distinct, PersistedList.NoSpace;
      forall n | n in Kept(names, properties) ensures n in Told() && PersistedList.NoSpace(n) {
        assert RegisteredAt(n);
      }
    }

    /** `_refresh_persisted`: state the list again if the client was told another. */
    method Refresh(ghost gone: set<string>, time: int)
      requires ValidWith(gone, {})
      modifies outbox, ListHandle()`vector
      ensures ValidWith(gone, {}) && AllHonest() == old(AllHonest()) && ListIsExact()
      ensures forall n :: n != CONFIG_PERSISTED ==> InStep(n) == old(InStep(n))
      ensures CONFIG_PERSISTED !in properties ==> unchanged(outbox)
      ensures old(outbox.sent) <= outbox.sent && Seen() == old(Seen())
    {
      if CONFIG_PERSISTED in properties {
        hide CONFIG_PERSISTED, Orders, Distinct, Precedes, WellFormed, SnapshotOf, MergeVector,
             PersistedList.NoSpace, PersistedList.Join, Applied, AppliedAll, Emits, Honest;
        ghost var caches, before := outbox.caches, properties[CONFIG_PERSISTED].vector;
        var text := PersistedList.Join(Kept(names, properties));
        assert RegisteredAt(CONFIG_PERSISTED);
        ListWritten(before, text);
        ghost var row := Told();
        var fault, rejected := Push(CONFIG_PERSISTED, Setting([(PROPERTIES, Str(text))], None, None, false), gone, time);
        SeenPut(row, CONFIG_PERSISTED, Told()[CONFIG_PERSISTED]);
        assert ListText(properties[CONFIG_PERSISTED].vector) == text;
        if old(AllHonest()) {
          ToldHonestly(caches);
        } else {
          StaysMisled(caches);
        }
      }
    }

    /** What a client was told after the list was stated is honest. */
    lemma ToldHonestly(caches: seq<Cache>)
      requires outbox.Valid() && Orders(names, properties) && (forall n :: RegisteredAt(n)) && ListKept()
      requires properties.Keys <= Told().Keys && ListIsExact() && CONFIG_PERSISTED in properties
      requires Grew(caches, outbox.caches) && forall i :: 0 <= i < |caches| ==> Honest(Row(caches[i], device))
      ensures AllHonest()
    {
      hide Honest, Row, CONFIG_PERSISTED, Precedes, WellFormed, SnapshotOf, Distinct, Shows;
      assert RegisteredAt(CONFIG_PERSISTED);
      SameShownList(Told()[CONFIG_PERSISTED], properties[CONFIG_PERSISTED].vector, render);
      KeptAreTold();
      ListIsHonest(Told(), Kept(names, properties));
      HonestSoFar(caches);
    }

    /** The `def` of a registered handle: whatever the client held under its name, it
        holds the vector now. */
    method Tell(n: string)
      requires outbox.Valid() && Orders(names, properties) && OwnedAt(n) && (forall m :: m != n ==> RegisteredAt(m))
      requires (forall m :: AliveAt(m, {})) && (n != CONFIG_PERSISTED ==> ListKept())
      requires n == CONFIG_PERSISTED ==> setupDone && properties[n].policy == OnChange && !properties[n].persist
      requires n == CONFIG_PERSISTED ==> IsList(properties[n].vector)
      requires properties.Keys == Told().Keys + {n}
      modifies outbox
      ensures Valid() && InStep(n)
      ensures outbox.sent == old(outbox.sent) + [DefVector(properties[n].vector)]
      ensures outbox.caches == old(outbox.caches) + [outbox.Told()] && Told() == old(Told())[n := properties[n].vector]
      ensures forall m :: m != n ==> InStep(m) == old(InStep(m))
    {
      hide CONFIG_PERSISTED, Orders, Distinct, Precedes, WellFormed, SnapshotOf, PersistedList.NoSpace, Applied,
           AppliedAll, Persistable, IsList, Row;
      ghost var row, cache := Told(), outbox.Told();
      var prop := properties[n];
      prop.Announce();
      RowDef(cache, prop.vector);
      PrecedesReflexive(prop.vector);
      assert Told() == row[n := prop.vector];
      forall m ensures RegisteredAt(m) && AliveAt(m, {}) && (m != n ==> InStep(m) == old(InStep(m))) {
        assert m != n ==> old(RegisteredAt(m));
        assert old(AliveAt(m, {}));
      }
      if n == CONFIG_PERSISTED {
        assert AliveAt(n, {}) && InStep(n);
      } else if CONFIG_PERSISTED in properties {
        assert InStep(CONFIG_PERSISTED);
      }
    }

    /** The same, as `getProperties` has it repeated. */
    method AnnounceOne(n: string)
      requires Valid() && n in properties
      modifies outbox
      ensures Valid() && AllHonest() == old(AllHonest()) && InStep(n)
      ensures outbox.sent == old(outbox.sent) + [DefVector(properties[n].vector)]
      ensures Told() == old(Told())[n := properties[n].vector]
      ensures forall m :: m != n ==> InStep(m) == old(InStep(m))
    {
      hide CONFIG_PERSISTED, Orders, Distinct, Precedes, WellFormed, SnapshotOf, PersistedList.NoSpace,
           Honest, Persistable, ListText, Row;
      ghost var row, caches := Told(), outbox.caches;
      assert RegisteredAt(n);
      if n == CONFIG_PERSISTED {
        SameShownList(row[n], properties[n].vector, render);
      }
      Tell(n);
      if old(AllHonest()) {
        StaysHonest(row, caches);
      } else {
        StaysMisled(caches);
      }
    }

    /** The definitions of some registered properties, in order. */
    ghost function Definitions(these: seq<string>): seq<IndiMessage>
      reads this`properties, Handles()
    {
      if these == [] then []
      else
        var last := |these| - 1;
        Definitions(these[..last])
        + if these[last] in properties then [DefVector(properties[these[last]].vector)] else []
    }

    lemma DefinitionsSnoc(i: nat)
      requires i < |names| && names[i] in properties
      ensures Definitions(names[..i + 1]) == Definitions(names[..i]) + [DefVector(properties[names[i]].vector)]
    {
      assert names[..i + 1][..i] == names[..i];
    }

    /** A later `getProperties`: every property announced again, for a client that has
        just joined. */
    method AnnounceAll()
      requires Valid()
      modifies outbox
      ensures Valid() && AllHonest() == old(AllHonest()) && AllInStep()
      ensures outbox.sent == old(outbox.sent) + Definitions(names)
      ensures forall n :: n in properties ==> n in Told() && Told()[n] == properties[n].vector
      ensures Stated() == old(Stated())
    {
      hide CONFIG_PERSISTED, ValidWith, AllHonest, InStep, Definitions;
      NamesInOrder();
      assert Definitions(names[..0]) == [] by { EmptyDefinitions(); }
      ghost var handles: set<object> := Handles();
      assert outbox !in handles;
      var i := 0;
      while i < |names|
        invariant 0 <= i <= |names| && Valid() && AllHonest() == old(AllHonest())
        invariant forall j :: 0 <= j < i ==>
                    InStep(names[j]) && names[j] in Told() && Told()[names[j]] == properties[names[j]].vector
        invariant outbox.sent == old(outbox.sent) + Definitions(names[..i])
      {
        ghost var n := names[i];
        AnnounceOne(names[i]);
        assert forall j :: 0 <= j < i ==> names[j] != n;
        DefinitionsSnoc(i);
        i := i + 1;
      }
      assert names[..i] == names;
      forall n | n in properties ensures InStep(n) && n in Told() && Told()[n] == properties[n].vector {
        assert n in names;
      }
    }

    lemma EmptyDefinitions()
      ensures Definitions([]) == []
    {
    }

    /** `_restore`, in `define`: configured values go in before a client hears of the property. */
    method RestoreSaved(prop: BoundProperty)
      requires WellFormed(prop.vector) && !prop.retracted
      modifies prop`vector
      ensures prop.vector == if old(prop.vector).name in config then Restored(old(prop.vector), config[old(prop.vector).name])
                             else old(prop.vector)
      ensures WellFormed(prop.vector) && prop.vector.name == old(prop.vector).name
      ensures prop.vector.device == old(prop.vector).device && prop.vector.kind == old(prop.vector).kind
    {
      var name := prop.vector.name;
      if name in config && config[name] != [] {
        ghost var before := prop.vector;
        var rejected, fault := prop.ApplyValues(config[name]);
        PrecedesSame(before, prop.vector);
      }
    }

    /** Register a new handle and write any configured values into it, in `define`. */
    method Enlist(v: Vector, policy: Policy, persist: bool) returns (prop: BoundProperty)
      requires Valid() && v.device == device && WellFormed(v)
      modifies this`properties, this`names
      ensures fresh(prop) && prop.policy == policy && prop.persist == persist && !prop.retracted
      ensures prop.outbox == outbox && prop.render == render
      ensures prop.vector == if persist && v.name in config then Restored(v, config[v.name]) else v
      ensures WellFormed(prop.vector)
      ensures prop.vector.name == v.name && prop.vector.device == device && prop.vector.kind == v.kind
      ensures properties == old(properties)[v.name := prop] && Orders(names, properties)
      ensures names == if v.name in old(properties) then old(names) else old(names) + [v.name]
      ensures forall m :: m != v.name ==> RegisteredAt(m) && AliveAt(m, {}) && InStep(m) == old(InStep(m))
    {
      hide CONFIG_PERSISTED, Distinct, Precedes, WellFormed, SnapshotOf, PersistedList.NoSpace,
           Persistable, ListText, IsList, Restored, Row, PersistedList.Join, Shows;
      prop := new BoundProperty(v, outbox, policy, persist, render);
      names := if v.name in properties then names else names + [v.name];
      properties := properties[v.name := prop];
      if persist {
        RestoreSaved(prop);
      }
      OrdersMore(old(names), old(properties), v.name, prop);
      forall m | m != v.name ensures RegisteredAt(m) && AliveAt(m, {}) && InStep(m) == old(InStep(m)) {
        assert old(RegisteredAt(m)) && old(AliveAt(m, {}));
      }
    }

    /** Register a handle under its vector's name and announce it, in `define`. */
    method Register(v: Vector, policy: Policy, persist: bool) returns (prop: BoundProperty)
      requires Valid() && v.device == device && WellFormed(v)
      requires persist ==> PersistedList.NoSpace(v.name) && Persistable(v.kind)
      requires v.name == CONFIG_PERSISTED ==> ListsTheRest(v, policy, persist)
      modifies this`properties, this`names, outbox
      ensures Valid() && fresh(prop) && prop.policy == policy && prop.persist == persist
      ensures properties == old(properties)[v.name := prop]
      ensures names == if v.name in old(properties) then old(names) else old(names) + [v.name]
      ensures prop.vector == if persist && v.name in config then Restored(v, config[v.name]) else v
      ensures outbox.sent == old(outbox.sent) + [DefVector(prop.vector)]
      ensures outbox.caches == old(outbox.caches) + [outbox.Told()] && Told() == old(Told())[v.name := prop.vector]
      ensures InStep(v.name) && forall m :: m != v.name ==> InStep(m) == old(InStep(m))
    {
      hide CONFIG_PERSISTED, Distinct, Precedes, WellFormed, SnapshotOf, PersistedList.NoSpace, Applied,
           AppliedAll, Persistable, ListText, IsList, Restored, Row, PersistedList.Join, Orders;
      prop := Enlist(v, policy, persist);
      Tell(v.name);
    }

    /** Registering any property but the list keeps a client's list honest; one that is
        not persisted, over none that is, leaves it exact. */
    method RegisterHonestly(v: Vector, policy: Policy, persist: bool) returns (handle: BoundProperty)
      requires Valid() && v.device == device && WellFormed(v) && v.name != CONFIG_PERSISTED
      requires persist ==> PersistedList.NoSpace(v.name) && Persistable(v.kind)
      modifies this`properties, this`names, outbox
      ensures Valid() && AllHonest() == old(AllHonest())
      ensures fresh(handle) && properties == old(properties)[v.name := handle]
      ensures handle.policy == policy && handle.persist == persist
      ensures handle.vector == if persist && v.name in config then Restored(v, config[v.name]) else v
      ensures InStep(v.name) && forall m :: m != v.name ==> InStep(m) == old(InStep(m))
      ensures names == if v.name in old(properties) then old(names) else old(names) + [v.name]
      ensures outbox.sent == old(outbox.sent) + [DefVector(handle.vector)] && Stated() == old(Stated())
      ensures Seen() == old(Seen())[v.name := handle.vector]
      ensures old(ListIsExact()) && !persist && !(v.name in old(properties) && old(properties)[v.name].persist) ==>
                ListIsExact()
    {
      hide CONFIG_PERSISTED, Distinct, Precedes, WellFormed, SnapshotOf, PersistedList.NoSpace, Applied,
           AppliedAll, ListText, IsList, Restored, Row, PersistedList.Join, Honest, RegisteredAt, AliveAt, ListKept,
           Shows, Persistable, InStep;
      ghost var row, caches := Told(), outbox.caches;
      handle := Register(v, policy, persist);
      SeenPut(row, v.name, handle.vector);
      if old(AllHonest()) {
        StaysHonest(row, caches);
      } else {
        StaysMisled(caches);
      }
      if !persist && !(v.name in old(properties) && old(properties)[v.name].persist) {
        ListUnmoved(old(names), old(properties), v.name, handle);
      }
    }

    /** The tail of `define`, once its checks have passed. */
    method DefineChecked(v: Vector, policy: Policy, persist: bool, time: int) returns (handle: BoundProperty)
      requires Valid() && v.device == device && WellFormed(v) && v.name != CONFIG_PERSISTED
      requires persist ==> PersistedList.NoSpace(v.name) && Persistable(v.kind)
      modifies this`properties, this`names, outbox, ListHandle()`vector
      ensures Valid() && AllHonest() == old(AllHonest())
      ensures fresh(handle) && properties == old(properties)[v.name := handle]
      ensures handle.policy == policy && handle.persist == persist
      ensures handle.vector == if persist && v.name in config then Restored(v, config[v.name]) else v
      ensures InStep(v.name)
      ensures forall m :: m != v.name && m != CONFIG_PERSISTED ==> InStep(m) == old(InStep(m))
      ensures names == if v.name in old(properties) then old(names) else old(names) + [v.name]
      ensures old(outbox.sent) + [DefVector(handle.vector)] <= outbox.sent
      ensures Seen() == old(Seen())[v.name := handle.vector] && (!persist ==> Stated() == old(Stated()))
      ensures persist ==> ListIsExact()
      ensures old(ListIsExact()) && !(v.name in old(properties) && old(properties)[v.name].persist) ==> ListIsExact()
    {
      hide CONFIG_PERSISTED, Distinct, Precedes, WellFormed, SnapshotOf, PersistedList.NoSpace, Applied,
           AppliedAll, ListText, IsList, Restored, Row, PersistedList.Join, Honest, RegisteredAt, AliveAt, ListKept,
           Shows, Persistable, InStep, AllHonest, ValidWith;
      handle := RegisterHonestly(v, policy, persist);
      if persist {
        Refresh({}, time);
      }
    }

    /** `define`: register, restore and announce a property, and then state the list
        again if it is a persisted one. In place of an older handle of its name, which
        is left as it was, unretracted. */
    method Define(v0: Vector, policy: Policy, persist: bool, time: int)
      returns (prop: Option<BoundProperty>)
      requires Valid() && (v0.device == "" || v0.device == device) && WellFormed(v0)
      requires v0.name != CONFIG_PERSISTED
      modifies this`properties, this`names, outbox, ListHandle()`vector
      ensures Valid() && AllHonest() == old(AllHonest())
      ensures prop.None? <==> persist && (!Persistable(v0.kind) || !PersistedList.NoSpace(v0.name))
      ensures prop.None? ==> unchanged(this) && unchanged(outbox) && InStep(v0.name) == old(InStep(v0.name))
      ensures prop.None? ==> ListIsExact() == old(ListIsExact())
      ensures prop.Some? ==>
                var v := v0.(device := device);
                && fresh(prop.value) && properties == old(properties)[v.name := prop.value]
                && prop.value.policy == policy && prop.value.persist == persist
                && prop.value.vector == (if persist && v.name in config then Restored(v, config[v.name]) else v)
                && names == (if v.name in old(properties) then old(names) else old(names) + [v.name])
                && old(outbox.sent) + [DefVector(prop.value.vector)] <= outbox.sent
                && Seen() == old(Seen())[v.name := prop.value.vector] && InStep(v.name)
      ensures !persist || prop.None? ==> Stated() == old(Stated())
      ensures forall m :: m != v0.name && m != CONFIG_PERSISTED ==> InStep(m) == old(InStep(m))
      ensures persist && prop.Some? ==> ListIsExact()
      ensures old(ListIsExact()) && !(v0.name in old(properties) && old(properties)[v0.name].persist) ==> ListIsExact()
      ensures old(ListIsExact()) && CONFIG_PERSISTED in properties && v0.name != "" ==>
                (ListIsExact() <==> !(!persist && v0.name in old(properties) && old(properties)[v0.name].persist))
    {
      ghost var was, before := properties, names;
      assert CONFIG_PERSISTED in properties ==> forall n :: n in Kept(names, properties) ==> PersistedList.NoSpace(n) by {
        KeptAreTold();
      }
      var v := if v0.device == "" then v0.(device := device) else v0;
      if persist && (v.kind == LightKind || v.kind == BlobKind) {
        return None;
      }
      if persist && !PersistedList.NoSpace(v.name) {
        return None;
      }
      assert WellFormed(v);
      hide CONFIG_PERSISTED, ValidWith, AllHonest, PersistedList.Join, ListText, InStep, Restored, WellFormed;
      hide ListIsExact, Kept, Honest, OwnedAt, Seen, PersistedList.NoSpace;
      var handle := DefineChecked(v, policy, persist, time);
      prop := Some(handle);
      if old(ListIsExact()) && CONFIG_PERSISTED in properties && v.name != "" {
        if !persist && v.name in was && was[v.name].persist {
          StaleAfter(was, before, v.name, handle);
        }
      }
    }

    /** Replacing a persisted property by one that is not leaves a stated list stale. */
    lemma StaleAfter(was: map<string, BoundProperty>, before: seq<string>, name: string, handle: BoundProperty)
      requires name in was && was[name].persist && name in before && name != "" && !handle.persist
      requires properties == was[name := handle] && names == before
      requires CONFIG_PERSISTED in properties && ListText(properties[CONFIG_PERSISTED].vector) == PersistedList.Join(Kept(before, was))
      requires forall n :: n in Kept(before, was) ==> PersistedList.NoSpace(n)
      ensures !ListIsExact()
    {
      PersistedList.WordsOfJoin(Kept(before, was));
      PersistedList.WordsOfJoin(Kept(names, properties));
      assert name in PersistedList.NonEmpty(Kept(before, was));
      assert name !in PersistedList.NonEmpty(Kept(names, properties));
    }

    /** Drop the handle from the registry, in `_forget`. */
    method Unlist(n: string)
      requires n in properties && ValidWith({}, {At(n)})
      modifies this`properties, this`names
      ensures properties == old(properties) - {n} && names == Without(old(names), n)
      ensures ValidWith({n}, {})
      ensures forall m :: m != n ==> InStep(m) == old(InStep(m))
    {
      hide CONFIG_PERSISTED, Distinct, Precedes, WellFormed, SnapshotOf, PersistedList.NoSpace, Applied,
           AppliedAll, Persistable, IsList, Row, Shows;
      Distinguish(n);
      OrdersLess(names, properties, n);
      hide Orders, Without, ListText;
      properties := properties - {n};
      names := Without(names, n);
      forall m ensures RegisteredAt(m) && AliveAt(m, {}) && (m != n ==> InStep(m) == old(InStep(m))) {
        assert old(RegisteredAt(m)) && old(AliveAt(m, {At(n)}));
      }
      if CONFIG_PERSISTED in properties {
        assert InStep(CONFIG_PERSISTED);
      }
    }

    /** Keep a persisted property's values on its way out, in `_forget`. */
    method Capture(prop: BoundProperty)
      requires ValidWith({}, {prop})
      modifies this`config
      ensures config == old(config)[prop.vector.name := ValuesOf(prop.vector.elements, show)]
      ensures ValidWith({}, {prop}) && AllHonest() == old(AllHonest()) && ListIsExact() == old(ListIsExact())
      ensures forall m :: InStep(m) == old(InStep(m))
    {
      hide CONFIG_PERSISTED, Distinct, Precedes, WellFormed, SnapshotOf, PersistedList.NoSpace, PersistedList.Join,
           Persistable, IsList, Row, Shows, ListText, Honest, ValuesOf;
      var values := CollectValues(prop.vector.elements, show);
      config := config[prop.vector.name := values];
      forall m ensures RegisteredAt(m) && AliveAt(m, {prop}) && InStep(m) == old(InStep(m)) {
        assert old(RegisteredAt(m)) && old(AliveAt(m, {prop}));
      }
    }

    lemma ListIsAnother(prop: BoundProperty)
      requires (forall m :: RegisteredAt(m)) && ListKept()
      ensures CONFIG_PERSISTED in properties && (prop.vector.name != CONFIG_PERSISTED || prop.persist) ==>
                At(CONFIG_PERSISTED) != prop
    {
      assert RegisteredAt(CONFIG_PERSISTED);
    }

    /** `_forget`: drop a handle's property, if the handle is the registered one, keeping
        a persisted one's values and stating the list without it. */
    method Forget(prop: BoundProperty, time: int) returns (removed: bool)
      requires ValidWith({}, {prop})
      modifies this`properties, this`names, this`config, outbox,
               ListHandle()`vector
      ensures removed <==> prop.vector.name in old(properties) && old(properties)[prop.vector.name] == prop
      ensures !removed ==> unchanged(this) && unchanged(outbox)
      ensures !removed && CONFIG_PERSISTED in properties ==> unchanged(At(CONFIG_PERSISTED))
      ensures !removed ==> ValidWith({}, {prop}) && forall m :: InStep(m) == old(InStep(m))
      ensures removed ==>
                && properties == old(properties) - {prop.vector.name} && names == Without(old(names), prop.vector.name)
                && config == (if prop.persist then old(config)[prop.vector.name := ValuesOf(prop.vector.elements, show)]
                              else old(config))
                && ValidWith({prop.vector.name}, {})
      ensures AllHonest() == old(AllHonest())
      ensures old(ListIsExact()) || (removed && prop.persist) ==> ListIsExact()
      ensures Seen() == old(Seen()) && prop.vector == old(prop.vector)
      ensures !(removed && (prop.persist || prop.vector.name == CONFIG_PERSISTED)) ==> Stated() == old(Stated())
      ensures forall m :: m != prop.vector.name && m != CONFIG_PERSISTED ==> InStep(m) == old(InStep(m))
    {
      hide CONFIG_PERSISTED, Distinct, Precedes, WellFormed, SnapshotOf, PersistedList.NoSpace, Applied, AllHonest,
           AppliedAll, Persistable, IsList, Row, Shows, RegisteredAt, AliveAt, ListKept, InStep, ValuesOf,
           PersistedList.Join, ListText, Kept, Seen, Without, Honest;
      var n := prop.vector.name;
      ListIsAnother(prop);
      if n !in properties || properties[n] != prop {
        return false;
      }
      if prop.persist {
        Capture(prop);
      }
      if !prop.persist {
        KeptWithout(names, n, properties);
      }
      Unlist(n);
      if prop.persist {
        Refresh({n}, time);
      } else {
        KeptAgrees(names, properties, old(properties));
      }
      removed := true;
    }

    /** Mark a handle dead, in `delete`. */
    method Retract(prop: BoundProperty)
      requires Valid()
      modifies prop`retracted
      ensures prop.retracted && ValidWith({}, {prop})
      ensures ListIsExact() == old(ListIsExact()) && Stated() == old(Stated())
      ensures forall m :: InStep(m) == old(InStep(m))
    {
      hide CONFIG_PERSISTED, Distinct, Precedes, WellFormed, SnapshotOf, PersistedList.NoSpace, PersistedList.Join,
           Persistable, IsList, Row, Shows, ListText;
      ListIsAnother(prop);
      prop.retracted := true;
      forall m ensures RegisteredAt(m) && AliveAt(m, {prop}) && InStep(m) == old(InStep(m)) {
        assert old(RegisteredAt(m)) && old(AliveAt(m, {}));
      }
    }

    /** The `delProperty` a client is told once the registry has let a name go. */
    method TellGone(n: string, why: Option<string>, time: int)
      requires n !in properties && ValidWith({n}, {})
      modifies outbox
      ensures Valid() && outbox.sent == old(outbox.sent) + [DelProperty(device, Some(n), Some(time), why)]
      ensures old(AllHonest()) && (ListIsExact() || Honest(Told())) ==> AllHonest()
      ensures AllHonest() ==> old(AllHonest())
      ensures Seen() == old(Seen()) - {n} && Stated() == old(Stated()) && ListIsExact() == old(ListIsExact())
      ensures forall m :: m != n ==> InStep(m) == old(InStep(m))
    {
      hide CONFIG_PERSISTED, Distinct, Precedes, WellFormed, SnapshotOf, PersistedList.NoSpace, Applied, AppliedAll,
           PersistedList.Join, Persistable, IsList, Row, Shows, ListText, Honest;
      ghost var row, cache, caches := Told(), outbox.Told(), outbox.caches;
      outbox.Emit(DelProperty(device, Some(n), Some(time), why));
      RowDel(cache, device, n, Some(time), why);
      assert Told() == row - {n};
      SeenDrop(row, n);
      forall m ensures RegisteredAt(m) && AliveAt(m, {}) && (m != n ==> InStep(m) == old(InStep(m))) {
        assert old(RegisteredAt(m)) && old(AliveAt(m, {}));
      }
      if CONFIG_PERSISTED in properties {
        assert InStep(CONFIG_PERSISTED);
      }
      if old(AllHonest()) && Honest(Told()) {
        HonestSoFar(caches);
      } else if old(AllHonest()) && ListIsExact() {
        StatedHonestly(caches);
      } else if !old(AllHonest()) {
        StaysMisled(caches);
      }
    }

    /** A client's list is honest wherever the registry's list is exact. */
    lemma StatedHonestly(caches: seq<Cache>)
      requires Valid() && ListIsExact() && Grew(caches, outbox.caches)
      requires forall i :: 0 <= i < |caches| ==> Honest(Row(caches[i], device))
      ensures AllHonest()
    {
      if CONFIG_PERSISTED in properties {
        ToldHonestly(caches);
      } else {
        HonestSoFar(caches);
      }
    }

    /** `delete` on a handle: withdraw the property it owns, and say nothing when it owns
        none, already retracted or replaced under its name. */
    method Withdraw(prop: BoundProperty, why: Option<string>, time: int)
      requires Valid()
      modifies prop`retracted, this`properties, this`names, this`config, outbox,
               ListHandle()`vector
      ensures Valid() && prop.retracted && prop.vector == old(prop.vector)
      ensures old(AllHonest()) && (old(ListIsExact()) || Honest(Told())) ==> AllHonest()
      ensures AllHonest() ==> old(AllHonest())
      ensures old(ListIsExact()) ==> ListIsExact()
      ensures var n := old(prop.vector).name;
              var owns := n in old(properties) && old(properties)[n] == prop;
              && properties == (if owns then old(properties) - {n} else old(properties))
              && names == (if owns then Without(old(names), n) else old(names))
              && config == (if owns && prop.persist then old(config)[n := ValuesOf(prop.vector.elements, show)]
                            else old(config))
              && (!owns ==> unchanged(outbox) && InStep(n) == old(InStep(n)))
              && Seen() == (if owns then old(Seen()) - {n} else old(Seen()))
              && (owns && prop.persist ==> ListIsExact())
              && (!(owns && (prop.persist || n == CONFIG_PERSISTED)) ==> Stated() == old(Stated()))
              && (owns ==> outbox.sent != [] && outbox.sent[|outbox.sent| - 1]
                                                == DelProperty(device, Some(n), Some(time), why))
              && forall m :: m != n && m != CONFIG_PERSISTED ==> InStep(m) == old(InStep(m))
    {
      hide CONFIG_PERSISTED, Distinct, RegisteredAt, AliveAt, ListKept, AllHonest, InStep, Row, ValuesOf,
           PersistedList.Join, ListText, Seen, ListIsExact, Stated, Honest, OwnedAt;
      ListIsAnother(prop);
      if prop.retracted {
        NotRegistered(prop);
        return;
      }
      Retract(prop);
      var removed := Forget(prop, time);
      if removed {
        TellGone(prop.vector.name, why, time);
      } else {
        StillValid(prop);
      }
    }

    lemma NotRegistered(prop: BoundProperty)
      requires Valid() && prop.retracted
      ensures !(prop.vector.name in properties && properties[prop.vector.name] == prop)
    {
      assert AliveAt(prop.vector.name, {});
    }

    lemma StillValid(prop: BoundProperty)
      requires ValidWith({}, {prop}) && !(prop.vector.name in properties && properties[prop.vector.name] == prop)
      ensures Valid()
    {
      forall m ensures AliveAt(m, {}) {
        assert RegisteredAt(m) && AliveAt(m, {prop});
      }
    }

    /** `delete_property`: silent for a name that is not there. */
    method DeleteProperty(name: string, why: Option<string>, time: int)
      requires Valid()
      modifies (if name in properties then {At(name)} else {})`retracted,
               this`properties, this`names, this`config, outbox,
               ListHandle()`vector
      ensures Valid() && properties == old(properties) - {name}
      ensures name in old(properties) ==>
                var prop := old(properties)[name];
                && prop.retracted && Some(prop.vector) == old(if name in properties then Some(properties[name].vector) else None)
                && names == Without(old(names), name)
                && config == (if prop.persist then old(config)[name := ValuesOf(prop.vector.elements, show)]
                              else old(config))
                && outbox.sent != [] && outbox.sent[|outbox.sent| - 1] == DelProperty(device, Some(name), Some(time), why)
      ensures name !in old(properties) ==> unchanged(this) && unchanged(outbox)
      ensures Seen() == old(Seen()) - {name}
      ensures name in old(properties) && old(properties)[name].persist ==> ListIsExact()
      ensures !(name in old(properties) && (old(properties)[name].persist || name == CONFIG_PERSISTED)) ==>
                Stated() == old(Stated())
      ensures old(AllHonest()) && (old(ListIsExact()) || Honest(Told())) ==> AllHonest()
      ensures AllHonest() ==> old(AllHonest())
      ensures old(ListIsExact()) ==> ListIsExact()
      ensures forall m :: m != name && m != CONFIG_PERSISTED ==> InStep(m) == old(InStep(m))
    {
      hide CONFIG_PERSISTED, Distinct, AliveAt, ListKept, AllHonest, InStep, Row, ValuesOf,
           PersistedList.Join, ListText, ListIsExact;
      if name in properties {
        assert RegisteredAt(name);
        Withdraw(properties[name], why, time);
      } else {
        assert properties - {name} == properties;
      }
    }

    /** `_publish_persisted`: define the list once the setup has settled what it names. */
    method PublishPersisted(time: int)
      requires Valid() && setupDone
      modifies this`properties, this`names, outbox
      ensures Valid() && AllHonest() == old(AllHonest())
      ensures CONFIG_PROCESS !in old(properties) || CONFIG_PERSISTED in old(properties) ==>
                unchanged(this) && unchanged(outbox)
      ensures CONFIG_PROCESS in old(properties) && CONFIG_PERSISTED !in old(properties) ==>
                && CONFIG_PERSISTED in properties && fresh(properties[CONFIG_PERSISTED]) && ListIsExact()
                && names == old(names) + [CONFIG_PERSISTED]
                && Stated() == Some(PersistedList.Join(Kept(old(names), old(properties))))
      ensures Seen() == old(Seen())
      ensures old(ListIsExact()) ==> ListIsExact()
      ensures forall m :: m != CONFIG_PERSISTED ==>
                InStep(m) == old(InStep(m)) && (m in properties <==> m in old(properties))
                && (m in properties ==> properties[m] == old(properties)[m])
    {
      hide PROPERTIES, Distinct, Precedes, SnapshotOf, PersistedList.NoSpace, Applied, AppliedAll, Row,
           PersistedList.Join, RegisteredAt, AliveAt, ListKept, Shows, Persistable, InStep, Honest;
      if CONFIG_PROCESS !in properties || CONFIG_PERSISTED in properties {
        return;
      }
      var text := PersistedList.Join(Kept(names, properties));
      var v := Vector(device, CONFIG_PERSISTED, Some("Saved properties"), properties[CONFIG_PROCESS].vector.group,
                      TextKind, Some(RO), None, Ok, None, None, None,
                      [Text(PROPERTIES, Some("Properties"), text)]);
      ghost var kept, caches := Kept(names, properties), outbox.caches;
      KeptAreTold();
      ghost var row := Told();
      var handle := Register(v, OnChange, false);
      SeenPut(row, CONFIG_PERSISTED, handle.vector);
      ListUnmoved(old(names), old(properties), v.name, handle);
      if old(AllHonest()) {
        ListIsHonest(Told(), kept);
        HonestSoFar(caches);
      } else {
        StaysMisled(caches);
      }
    }

    /** The loop of `save_config`. */
    method ReadValues()
      requires Orders(names, properties)
      modifies this`config
      ensures forall n :: n in properties && properties[n].persist ==>
                n in config && config[n] == ValuesOf(properties[n].vector.elements, show)
      ensures forall n :: !(n in properties && properties[n].persist) ==>
                (n in config <==> n in old(config)) && (n in config ==> config[n] == old(config)[n])
    {
      hide ValuesOf;
      var i := 0;
      while i < |names|
        invariant 0 <= i <= |names|
        invariant forall n :: n in names[..i] && properties[n].persist ==>
                    n in config && config[n] == ValuesOf(properties[n].vector.elements, show)
        invariant forall n :: !(n in names[..i] && properties[n].persist) ==>
                    (n in config <==> n in old(config)) && (n in config ==> config[n] == old(config)[n])
      {
        var prop := properties[names[i]];
        if prop.persist {
          var values := CollectValues(prop.vector.elements, show);
          config := config[names[i] := values];
        }
        assert names[..i + 1] == names[..i] + [names[i]];
        i := i + 1;
      }
      assert names[..i] == names;
    }

    /** `save_config`: read every persisted property into the configuration, and write
        the whole of it. */
    method SaveConfig() returns (document: map<string, Saved>)
      requires Valid()
      modifies this`config
      ensures Valid() && document == config && ListIsExact() == old(ListIsExact()) && Stated() == old(Stated())
      ensures forall m :: InStep(m) == old(InStep(m))
      ensures forall n :: n in properties && properties[n].persist ==>
                n in document && document[n] == ValuesOf(properties[n].vector.elements, show)
      ensures forall n :: !(n in properties && properties[n].persist) ==>
                (n in document <==> n in old(config)) && (n in document ==> document[n] == old(config)[n])
    {
      hide CONFIG_PERSISTED, Distinct, Precedes, WellFormed, SnapshotOf, PersistedList.NoSpace, PersistedList.Join,
           Persistable, IsList, Row, Shows, ListText, Honest, ValuesOf;
      ReadValues();
      forall m ensures RegisteredAt(m) && AliveAt(m, {}) && InStep(m) == old(InStep(m)) {
        assert old(RegisteredAt(m)) && old(AliveAt(m, {}));
      }
      document := config;
    }

    /** Take a document's values into the configuration, in `load_config`. */
    method TakeDocument(document: map<string, Saved>)
      requires Valid()
      modifies this`config
      ensures config == old(config) + document && Valid() && ListIsExact() == old(ListIsExact())
      ensures forall m :: InStep(m) == old(InStep(m))
    {
      hide CONFIG_PERSISTED, Distinct, Precedes, WellFormed, SnapshotOf, PersistedList.NoSpace, PersistedList.Join,
           Persistable, IsList, Row, Shows, ListText, Honest;
      config := config + document;
      forall m ensures RegisteredAt(m) && AliveAt(m, {}) && InStep(m) == old(InStep(m)) {
        assert old(RegisteredAt(m)) && old(AliveAt(m, {}));
      }
    }

    /** What every registered handle holds. */
    ghost function Vectors(): map<string, Vector>
      reads this`properties, Handles()
    {
      map n | n in properties :: properties[n].vector
    }

    /** The persisted properties' vectors, which a document may restore. */
    ghost function Restorable(): map<string, Vector>
      reads this`properties, Handles()
    {
      map n | n in properties && properties[n].persist :: properties[n].vector
    }

    /** `_restore` of one property a document has values for, if it is persisted. */
    method RestoreLive(name: string, values: Saved, time: int) returns (rejected: seq<string>)
      requires Valid() && name in properties && properties[name].persist
      modifies outbox, At(name)`vector
      ensures Valid() && AllHonest() == old(AllHonest()) && ListIsExact() == old(ListIsExact())
      ensures rejected == Refusals(old(properties[name].vector), values)
      ensures name in old(Seen()) && Stated() == old(Stated())
      ensures var (after, told) := Pushed(properties[name].policy, old(properties[name].vector), old(Seen())[name],
                                          Restoring(values), time, render);
              Vectors() == old(Vectors())[name := after] && Seen() == old(Seen())[name := told]
      ensures forall m :: old(InStep(m)) ==> InStep(m)
    {
      hide CONFIG_PERSISTED, Distinct, Precedes, WellFormed, SnapshotOf, PersistedList.NoSpace, PersistedList.Join,
           Persistable, IsList, Row, Shows, ListText, Honest, Restored, AllHonest, InStep, Pushed,
           Refusals, Seen, Stated, ListIsExact, BoundProperty.Performed, Vectors;
      ListKeepsNothing(name);
      Distinguish(name);
      assert Others(name);
      hide RegisteredAt, AliveAt, ListKept, ValidWith;
      ghost var vectors := Vectors();
      VectorsAll();
      var fault;
      fault, rejected := Update(name, Restoring(values), time);
      VectorsOnly(name, vectors);
    }

    lemma RestorableAre()
      ensures forall n :: n in Restorable() <==> n in Vectors() && properties[n].persist
      ensures forall n :: n in Restorable() ==> Restorable()[n] == Vectors()[n]
    {
    }

    lemma ListKeepsNothing(n: string)
      requires ListKept() && n in properties && properties[n].persist
      ensures n != CONFIG_PERSISTED
    {
    }

    lemma VectorsAll()
      ensures Vectors().Keys == properties.Keys && forall n :: n in properties ==> Vectors()[n] == properties[n].vector
    {
    }

    lemma VectorsOnly(n: string, was: map<string, Vector>)
      requires n in properties && was.Keys == properties.Keys
      requires forall m :: m in properties && m != n ==> properties[m].vector == was[m]
      ensures Vectors() == was[n := properties[n].vector]
    {
    }

    lemma VectorsAre(n: string)
      ensures n in Vectors() <==> n in properties
      ensures n in Vectors() ==> Vectors()[n] == properties[n].vector
    {
    }

    /** The loop of `load_config` over the document's properties: the persisted ones that
        are defined take their values; the names it applied to, and the values refused. */
    method ApplyDocument(document: map<string, Saved>, order: seq<string>, time: int)
      returns (applied: seq<string>, refused: seq<(string, string)>)
      requires Valid() && Orders(order, document)
      modifies outbox, Handles()`vector
      ensures Valid() && AllHonest() == old(AllHonest()) && ListIsExact() == old(ListIsExact())
      ensures forall m :: old(InStep(m)) ==> InStep(m)
      ensures forall n :: n in applied <==> n in document && n in properties && properties[n].persist
      ensures refused == RefusedOf(order, document, old(Restorable()))
      ensures Taken(properties, old(Vectors()), old(Seen()), Vectors(), Seen(), document, applied, time, render)
      ensures Stated() == old(Stated())
    {
      hide CONFIG_PERSISTED, Precedes, WellFormed, SnapshotOf, PersistedList.NoSpace, PersistedList.Join, ListKept,
           Persistable, IsList, Row, Shows, ListText, Honest, Restored, AllHonest, ListIsExact, AliveAt, InStep,
           Pushed, Refusals, Seen, Stated, Restorable, RefusedOf, Named, Orders, Taken, Vectors;
      ghost var live, vectors, seen := Restorable(), Vectors(), Seen();
      RestorableAre();
      TakenNone(properties, vectors, seen, document, time, render);
      applied, refused := [], [];
      RefusedNone(document, live);
      var i := 0;
      while i < |order|
        invariant 0 <= i <= |order| && Valid()
        invariant AllHonest() == old(AllHonest()) && ListIsExact() == old(ListIsExact())
        invariant forall m :: old(InStep(m)) ==> InStep(m)
        invariant forall n :: n in applied <==> n in order[..i] && n in properties && properties[n].persist
        invariant refused == RefusedOf(order[..i], document, live)
        invariant Taken(properties, vectors, seen, Vectors(), Seen(), document, applied, time, render)
        invariant Stated() == old(Stated())
      {
        var name := order[i];
        InOrder(order, document, i);
        assert order[..i + 1] == order[..i] + [name] && name !in order[..i];
        RefusedSnoc(order, i, document, live);
        TakenNext(properties, vectors, seen, Vectors(), Seen(), document, applied, time, render, name);
        VectorsAre(name);
        if name in properties && properties[name].persist {
          var rejected := RestoreLive(name, document[name], time);
          applied, refused := applied + [name], refused + Named(name, rejected);
        }
        i := i + 1;
      }
      assert order[..i] == order;
      InOrder(order, document, 0);
    }

    /** `load_config`: the document's values join the configuration, and every persisted
        property that is defined takes the ones it has there. */
    method LoadConfig(document: map<string, Saved>, order: seq<string>, time: int)
      returns (applied: seq<string>, refused: seq<(string, string)>)
      requires Valid() && Orders(order, document)
      modifies this`config, outbox, Handles()`vector
      ensures Valid() && AllHonest() == old(AllHonest()) && ListIsExact() == old(ListIsExact())
      ensures config == old(config) + document
      ensures forall m :: old(InStep(m)) ==> InStep(m)
      ensures forall n :: n in applied <==> n in document && n in properties && properties[n].persist
      ensures refused == RefusedOf(order, document, old(Restorable()))
      ensures Taken(properties, old(Vectors()), old(Seen()), Vectors(), Seen(), document, applied, time, render)
      ensures Stated() == old(Stated())
    {
      hide CONFIG_PERSISTED, ValidWith, InStep, ListIsExact, Pushed, Orders, AllHonest, RefusedOf, Seen, Stated, Taken, Vectors, Restorable;
      TakeDocument(document);
      applied, refused := ApplyDocument(document, order, time);
    }

    /** One withdrawal of a rolled back attempt, before any list is published. */
    method DropOne(n: string, announced: map<string, BoundProperty>, why: string, time: int)
      requires Valid() && n in properties && CONFIG_PERSISTED !in properties
      modifies At(n)`retracted, this`properties, this`names, this`config, outbox
      ensures Valid() && AllHonest() == old(AllHonest())
      ensures Survives(old(properties), announced, n) ==> properties == old(properties)
      ensures !Survives(old(properties), announced, n) ==>
                properties == old(properties) - {n} && old(properties)[n].retracted
      ensures config == if !Survives(old(properties), announced, n) && old(properties)[n].persist
                        then old(config)[n := ValuesOf(old(properties[n].vector).elements, show)] else old(config)
      ensures old(properties[n].retracted) ==> old(properties)[n].retracted
    {
      hide CONFIG_PERSISTED, Distinct, AliveAt, ListKept, AllHonest, InStep, Row, ValuesOf, PersistedList.Join,
           ListText, Precedes, WellFormed;
      if !(n in announced && announced[n] == properties[n]) {
        assert RegisteredAt(n);
        Withdraw(properties[n], Some(why), time);
      }
    }

    lemma AllHandles()
      ensures forall n :: n in properties ==> properties[n] in Handles()
    {
    }

    lemma SaveableAre()
      ensures forall n :: n in Saveable() <==> n in properties && properties[n].persist
      ensures forall n :: n in Saveable() ==> Saveable()[n] == ValuesOf(properties[n].vector.elements, show)
    {
    }

    /** The loop of `_roll_back_setup` over what the attempt left registered: everything
        that is not the very handle announced before it is withdrawn. */
    method DropIntroduced(announced: map<string, BoundProperty>, why: string, time: int)
      requires Valid() && CONFIG_PERSISTED !in properties
      modifies this`properties, this`names, this`config, outbox, Handles()`retracted
      ensures Valid() && AllHonest() == old(AllHonest())
      ensures properties == Survivors(old(properties), announced)
      ensures forall n :: n in old(properties) && n !in properties ==> old(properties)[n].retracted
      ensures CapturedSoFar(old(properties), old(Saveable()), properties, old(config), config)
    {
      hide CONFIG_PERSISTED, Precedes, WellFormed, SnapshotOf, PersistedList.NoSpace, PersistedList.Join, ListKept,
           Persistable, IsList, Row, Shows, ListText, Honest, AllHonest, InStep, ValuesOf, RegisteredAt, AliveAt, Distinct,
           ValidWith, Pending, Survivors, Survives, Orders, LeftSoFar, CapturedSoFar, Saveable, Handles;
      AllHandles();
      NamesInOrder();
      AllPending(names);
      ghost var was, values := properties, Saveable();
      SaveableAre();
      NoneLeft(was, announced, names, values, config);
      var todo, i := names, 0;
      while i < |todo|
        invariant 0 <= i <= |todo| && Valid() && AllHonest() == old(AllHonest())
        invariant LeftSoFar(was, announced, todo, i, properties)
        invariant CapturedSoFar(was, values, properties, old(config), config)
        invariant forall n :: n in was && n !in properties ==> was[n].retracted
      {
        LeftNext(was, announced, todo, i, properties);
        CapturedNext(was, values, properties, old(config), config, todo[i]);
        DropOne(todo[i], announced, why, time);
        i := i + 1;
      }
      NonePending(todo);
      AllLeft(was, announced, todo, properties);
    }

    /** The values every persisted property holds. */
    ghost function Saveable(): map<string, Saved>
      reads this`properties, Handles()
    {
      map n | n in properties && properties[n].persist :: ValuesOf(properties[n].vector.elements, show)
    }

    lemma NamesInOrder()
      requires Valid()
      ensures Distinct(names) && forall n :: n in names <==> n in properties
    {
    }

    /** The registry becomes the survivors in the order they were announced in, in
        `_roll_back_setup`. */
    method Reorder(order: seq<string>)
      requires Valid() && Orders(order, properties) && CONFIG_PERSISTED !in properties
      modifies this`names
      ensures names == order && Valid()
      ensures forall m :: InStep(m) == old(InStep(m))
    {
      hide CONFIG_PERSISTED, Distinct, Precedes, WellFormed, SnapshotOf, PersistedList.NoSpace, PersistedList.Join,
           Persistable, IsList, Row, Shows, ListText, Honest;
      names := order;
      forall m ensures RegisteredAt(m) && AliveAt(m, {}) && InStep(m) == old(InStep(m)) {
        assert old(RegisteredAt(m)) && old(AliveAt(m, {}));
      }
    }

    /** `_roll_back_setup`: withdraw what a failed attempt defined, keep the handles that
        were there before it and still are, and announce those again. A property the
        attempt deleted or redefined is gone for good. */
    method RollBackSetup(announced: map<string, BoundProperty>, order: seq<string>, why: string, time: int)
      requires Valid() && Orders(order, announced) && CONFIG_PERSISTED !in properties
      modifies this`properties, this`names, this`config, outbox, Handles()`retracted
      ensures Valid() && AllInStep() && AllHonest() == old(AllHonest())
      ensures properties == Survivors(old(properties), announced) && properties.Keys <= old(properties).Keys
      ensures names == Those(order, properties.Keys)
      ensures forall n :: n in old(properties) && n !in properties ==> old(properties)[n].retracted
      ensures CapturedSoFar(old(properties), old(Saveable()), properties, old(config), config)
      ensures forall n :: n in properties ==> n in Told() && Told()[n] == properties[n].vector
      ensures |outbox.sent| >= |names| && outbox.sent[|outbox.sent| - |names|..] == Definitions(names)
    {
      hide CONFIG_PERSISTED, RegisteredAt, AliveAt, ListKept, AllHonest, InStep, Row, Definitions;
      DropIntroduced(announced, why, time);
      Reorder(Those(order, properties.Keys));
      AnnounceAll();
      NamesInOrder();
      DefinitionsLength(names);
    }

    lemma {:induction false} DefinitionsLength(these: seq<string>)
      requires forall n :: n in these ==> n in properties
      ensures |Definitions(these)| == |these|
    {
      if these != [] {
        DefinitionsLength(these[..|these| - 1]);
      }
    }

    /** `_setup_done`, set and cleared. */
    method Latch(done: bool)
      requires Valid() && (!done ==> CONFIG_PERSISTED !in properties)
      modifies this`setupDone
      ensures setupDone == done && Valid() && Stated() == old(Stated())
      ensures forall m :: InStep(m) == old(InStep(m))
    {
      hide CONFIG_PERSISTED, Distinct, Precedes, WellFormed, SnapshotOf, PersistedList.NoSpace, PersistedList.Join,
           Persistable, IsList, Row, Shows, ListText, Honest;
      setupDone := done;
      forall m ensures RegisteredAt(m) && AliveAt(m, {}) && InStep(m) == old(InStep(m)) {
        assert old(RegisteredAt(m)) && old(AliveAt(m, {}));
      }
    }

    /** The one property of the reserved name is the list `_publish_persisted` defines. */
    ghost predicate ListsTheRest(v: Vector, policy: Policy, persist: bool)
      reads this
      requires forall n :: n in names ==> n in properties
    {
      && CONFIG_PERSISTED !in properties && setupDone && policy == OnChange && !persist && IsList(v)
      && ListText(v) == PersistedList.Join(Kept(names, properties))
    }
  }

  /** Registering a property that is not persisted, over none that is, leaves the list. */
  lemma ListUnmoved(names: seq<string>, m: map<string, BoundProperty>, name: string, prop: BoundProperty)
    requires (forall n :: n in names <==> n in m) && !prop.persist && (name in m ==> !m[name].persist)
    ensures Kept(if name in m then names else names + [name], m[name := prop]) == Kept(names, m)
  {
    KeptAgrees(names, m[name := prop], m);
    if name !in m {
      KeptSnoc(names, name, m[name := prop]);
    }
  }

  /** A name a loop over the names has yet to come to. */
  predicate Pending(names: seq<string>, i: int, n: string) {
    exists j :: 0 <= i <= j < |names| && names[j] == n
  }

  lemma RestOf(names: seq<string>, i: nat)
    requires i < |names| && Distinct(names)
    ensures forall n :: Pending(names, i, n) <==> n == names[i] || Pending(names, i + 1, n)
    ensures !Pending(names, i + 1, names[i])
  {
    forall n ensures Pending(names, i, n) <==> n == names[i] || Pending(names, i + 1, n) {
      if Pending(names, i, n) && n != names[i] {
        var j :| i <= j < |names| && names[j] == n;
        assert i + 1 <= j;
      }
    }
  }

  /** What loading did to the vectors and to what the client holds: the properties it
      applied to had their values restored and published, and nothing else changed. */
  predicate Taken(properties: map<string, BoundProperty>, was: map<string, Vector>, held: map<string, Vector>,
                  now: map<string, Vector>, holds: map<string, Vector>,
                  document: map<string, Saved>, applied: seq<string>, time: int, render: Render) {
    && now.Keys == was.Keys && holds.Keys == held.Keys
    && (forall n :: n in was && n !in applied ==> now[n] == was[n])
    && (forall n :: n in held && n !in applied ==> holds[n] == held[n])
    && forall n :: n in applied ==>
         && n in was && n in held && n in properties && n in document
         && (now[n], holds[n]) == Pushed(properties[n].policy, was[n], held[n], Restoring(document[n]), time, render)
  }

  lemma TakenNone(properties: map<string, BoundProperty>, was: map<string, Vector>, held: map<string, Vector>,
                  document: map<string, Saved>, time: int, render: Render)
    ensures Taken(properties, was, held, was, held, document, [], time, render)
  {
  }

  lemma TakenNext(properties: map<string, BoundProperty>, was: map<string, Vector>, held: map<string, Vector>,
                  now: map<string, Vector>, holds: map<string, Vector>,
                  document: map<string, Saved>, applied: seq<string>, time: int, render: Render, n: string)
    requires Taken(properties, was, held, now, holds, document, applied, time, render) && n !in applied && n in document
    ensures n in was <==> n in now
    ensures n in was ==> now[n] == was[n]
    ensures n in was && n in properties && n in holds ==>
              var (after, told) := Pushed(properties[n].policy, now[n], holds[n], Restoring(document[n]), time, render);
              Taken(properties, was, held, now[n := after], holds[n := told], document, applied + [n], time, render)
  {
    hide Pushed;
  }

  /** Element names qualified by their property's. */
  function Named(name: string, elements: seq<string>): seq<(string, string)> {
    seq(|elements|, i requires 0 <= i < |elements| => (name, elements[i]))
  }

  /** The values a document has that the properties it may restore refuse, in order. */
  function RefusedOf(order: seq<string>, document: map<string, Saved>, live: map<string, Vector>): seq<(string, string)> {
    if order == [] then []
    else
      var n := order[|order| - 1];
      RefusedOf(order[..|order| - 1], document, live)
      + if n in live && n in document then Named(n, Refusals(live[n], document[n])) else []
  }

  lemma RefusedNone(document: map<string, Saved>, live: map<string, Vector>)
    ensures RefusedOf([], document, live) == []
  {
  }

  lemma RefusedSnoc(order: seq<string>, i: nat, document: map<string, Saved>, live: map<string, Vector>)
    requires i < |order|
    ensures RefusedOf(order[..i + 1], document, live) == RefusedOf(order[..i], document, live)
            + if order[i] in live && order[i] in document then Named(order[i], Refusals(live[order[i]], document[order[i]]))
              else []
  {
    assert order[..i + 1][..i] == order[..i];
  }

  lemma InOrder(order: seq<string>, document: map<string, Saved>, i: nat)
    requires Orders(order, document)
    ensures forall n :: n in order <==> n in document
    ensures i < |order| ==> order[i] in document && order[i] !in order[..i]
  {
  }

  /** What a rollback has left registered when it has come to the i-th name. */
  predicate LeftSoFar(was: map<string, BoundProperty>, announced: map<string, BoundProperty>,
                      todo: seq<string>, i: int, now: map<string, BoundProperty>) {
    && (forall n :: n in now ==> n in was && now[n] == was[n])
    && forall n :: n in was ==> (n in now <==> Survives(was, announced, n) || Pending(todo, i, n))
  }

  lemma LeftNext(was: map<string, BoundProperty>, announced: map<string, BoundProperty>,
                 todo: seq<string>, i: nat, now: map<string, BoundProperty>)
    requires i < |todo| && Distinct(todo) && todo[i] in was && LeftSoFar(was, announced, todo, i, now)
    ensures todo[i] in now && now[todo[i]] == was[todo[i]] && now.Keys <= was.Keys
    ensures Survives(now, announced, todo[i]) == Survives(was, announced, todo[i])
    ensures LeftSoFar(was, announced, todo, i + 1, if Survives(now, announced, todo[i]) then now else now - {todo[i]})
  {
    RestOf(todo, i);
    hide Pending, Distinct;
  }

  /** The configuration after a rollback has let some persisted properties go: their last
      values, and whatever it had before for the others. */
  ghost predicate CapturedSoFar(was: map<string, BoundProperty>, values: map<string, Saved>, now: map<string, BoundProperty>,
                                before: map<string, Saved>, config: map<string, Saved>) {
    forall n ::
      if n in was && n !in now && n in values then n in config && config[n] == values[n]
      else (n in config <==> n in before) && (n in config ==> config[n] == before[n])
  }

  lemma CapturedNext(was: map<string, BoundProperty>, values: map<string, Saved>, now: map<string, BoundProperty>,
                     before: map<string, Saved>, config: map<string, Saved>, n: string)
    requires CapturedSoFar(was, values, now, before, config) && n in was && n in now
    ensures CapturedSoFar(was, values, now - {n}, before, if n in values then config[n := values[n]] else config)
  {
  }

  lemma NoneLeft(was: map<string, BoundProperty>, announced: map<string, BoundProperty>, todo: seq<string>,
                 values: map<string, Saved>, config: map<string, Saved>)
    requires forall n :: n in was ==> Pending(todo, 0, n)
    ensures LeftSoFar(was, announced, todo, 0, was) && CapturedSoFar(was, values, was, config, config)
  {
  }

  lemma AllLeft(was: map<string, BoundProperty>, announced: map<string, BoundProperty>, todo: seq<string>,
                now: map<string, BoundProperty>)
    requires LeftSoFar(was, announced, todo, |todo|, now)
    ensures now == Survivors(was, announced)
  {
    NonePending(todo);
    SurvivorsAre(was, announced, now);
  }

  lemma AllPending(names: seq<string>)
    ensures forall n :: n in names <==> Pending(names, 0, n)
  {
  }

  lemma NonePending(names: seq<string>)
    ensures forall n :: !Pending(names, |names|, n)
  {
  }

  /** The very handle announced under a name is the one registered now. */
  predicate Survives(now: map<string, BoundProperty>, announced: map<string, BoundProperty>, n: string) {
    n in announced && n in now && now[n] == announced[n]
  }

  ghost function Survivors(now: map<string, BoundProperty>, announced: map<string, BoundProperty>)
    : map<string, BoundProperty>
  {
    map n | n in announced && Survives(now, announced, n) :: announced[n]
  }

  lemma SurvivorsAre(now: map<string, BoundProperty>, announced: map<string, BoundProperty>,
                     left: map<string, BoundProperty>)
    requires left.Keys <= now.Keys && forall n :: n in left ==> left[n] == now[n]
    requires forall n :: n in now ==> (n in left <==> Survives(now, announced, n))
    ensures left == Survivors(now, announced)
  {
  }

  lemma OrdersLess(names: seq<string>, m: map<string, BoundProperty>, n: string)
    requires Orders(names, m)
    ensures Orders(Without(names, n), m - {n}) && forall k :: k in Without(names, n) <==> k in m - {n}
  {
  }

  lemma OrdersMore(names: seq<string>, m: map<string, BoundProperty>, name: string, prop: BoundProperty)
    requires Orders(names, m)
    ensures Orders(if name in m then names else names + [name], m[name := prop])
  {
  }

  lemma ListWritten(v: Vector, text: string)
    requires IsList(v) && WellFormed(v)
    ensures var edit := Setting([(PROPERTIES, Str(text))], None, None, false);
            && Edited(v, edit).1.None?
            && ListText(Edited(v, edit).0) == text && forall time :: ListText(Stamped(Edited(v, edit).0, time)) == text
  {
    hide PROPERTIES;
    var values: Saved := [(PROPERTIES, Str(text))];
    var next := v.(elements := v.elements[0 := v.elements[0].(text := text)]);
    assert IndexOf(v.elements, PROPERTIES) == 0;
    assert Assign(v, PROPERTIES, Str(text)) == Assigned(next);
    assert values[1..] == [];
    assert AssignAll(v, values) == AssignAll(next, []) == (next, None);
  }

  /** A device on which a property is defined, and the handle of it. */
  method DefineFirst(device: string, render: Render, show: real -> string, v: Vector, time: int)
    returns (d: Device, first: BoundProperty)
    requires WellFormed(v) && v.device == device && v.name != CONFIG_PERSISTED
    ensures d.Valid() && d.device == device && d.render == render && fresh(d) && fresh(d.outbox) && fresh(first)
    ensures d.properties == map[v.name := first] && first.vector == v && !first.retracted
    ensures first.outbox == d.outbox && first.render == render && first.policy == Always
  {
    hide WellFormed, Restored, Precedes, SnapshotOf, Honest, ListText, PersistedList.Join, CONFIG_PERSISTED;
    var outbox := new Outbox();
    d := new Device(device, outbox, render, show);
    var prop := d.Define(v, Always, false, time);
    first := prop.value;
    assert v.(device := device) == v;
    assert d.RegisteredAt(v.name) && d.AliveAt(v.name, {});
  }

  /** Two definitions of one property, the first one's handle left as it was. */
  method DefineTwice(device: string, render: Render, show: real -> string, v: Vector, time: int)
    returns (d: Device, first: BoundProperty)
    requires WellFormed(v) && v.device == device && v.name != CONFIG_PERSISTED
    ensures d.Valid() && d.device == device && d.render == render && fresh(d) && fresh(d.outbox) && fresh(first)
    ensures v.name in d.properties && d.properties[v.name].vector == v && d.properties[v.name].policy == Always
    ensures first.vector == v && !first.retracted && first !in d.Handles() && first.policy == Always
    ensures first.outbox == d.outbox && first.render == render && d.InStep(v.name)
  {
    hide WellFormed, Restored, Precedes, SnapshotOf, Honest, ListText, PersistedList.Join, CONFIG_PERSISTED,
         Device.ValidWith, Device.AllHonest, Device.ListIsExact, Device.Stated, Device.Seen, Device.InStep;
    d, first := DefineFirst(device, render, show, v, time);
    var second := d.Define(v, Always, false, time);
    assert v.(device := device) == v;
    assert d.properties == map[v.name := second.value];
  }

  /** Two definitions of one property, and an update through the first one's handle that
      writes other values: the client holds those, and the registry does not. */
  method SupersededMisleads(device: string, render: Render, show: real -> string, v: Vector, edit: Edit, time: int)
    returns (d: Device)
    requires WellFormed(v) && v.device == device && v.name != CONFIG_PERSISTED
    requires Edited(v, edit).1.None? && Edited(v, edit).0.elements != v.elements
    ensures v.name in d.properties && d.properties[v.name].vector == v && d.properties[v.name].policy == Always
    ensures v.name in d.Told() && d.Told()[v.name].elements == Edited(v, edit).0.elements
    ensures !d.InStep(v.name)
  {
    hide WellFormed, Restored, Precedes, MergeVector, Edited, SnapshotOf, Device.ValidWith, CONFIG_PERSISTED;
    var first;
    d, first := DefineTwice(device, render, show, v, time);
    var fault := d.UpdateSuperseded(first, edit, time);
    EditedKeeps(v, edit);
    StampedShows(v, Edited(v, edit).0, time, Always, render);
  }
}
