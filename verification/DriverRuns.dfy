/** A device with the handles its driver holds, in the form the source has it. Every call
    and every `getProperties` does exactly what the value-level model says of it, so what
    is proved there of the events of a run is true of every run of the device. */
module DriverRuns {
  import opened Wire
  import opened Store
  import opened Property
  import opened Handle
  import opened Driver
  import opened Registry
  import opened RegistryRuns
  import PersistedList

  function StatedText(s: State): Option<string> {
    if s.stated.Some? then Some(PersistedList.Join(s.stated.value)) else None
  }

  class Session {
    const d: Device
    const x: Context
    var made: seq<BoundProperty>
    ghost var repr: set<object>
    ghost var s: State

    constructor (device: string, render: Render, show: real -> string)
      ensures Valid() && fresh(repr) && fresh(this) && s == INITIAL && x == Context(device, render, show)
      ensures d.properties == map[] && d.outbox.sent == []
    {
      var outbox := new Outbox();
      d := new Device(device, outbox, render, show);
      x := Context(device, render, show);
      made, s := [], INITIAL;
      new;
      repr := {d, outbox};
      InitialInv(x);
    }

    ghost predicate Valid()
      reads this, repr
    {
      && d in repr && d.outbox in repr && this !in repr
      && (forall n :: n in d.properties ==> d.properties[n] in repr)
      && (forall i :: 0 <= i < |made| ==> made[i] in repr)
      && d.Valid() && x == Context(d.device, d.render, d.show)
      && Inv(s, x) && Mirrors()
    }

    ghost predicate Mirrors()
      reads this, d, d.Handles(), d.outbox, made
    {
      MirrorsIn(s, made)
    }

    /** The device is as the model has it, with these handles in its driver's hands. */
    ghost predicate MirrorsIn(t: State, handles: seq<BoundProperty>)
      reads d, d.Handles(), d.outbox, handles
    {
      && (forall n :: Mirrored(t.entries, handles, n)) && HandlesKept(t, handles)
      && d.names == t.order && d.config == t.config && d.setupDone == t.setupDone
      && d.Stated() == StatedText(t) && (t.honest <==> d.AllHonest())
    }

    /** A property is registered as the model has it, and a client holds what it says. */
    ghost predicate Mirrored(entries: map<string, Entry>, handles: seq<BoundProperty>, n: string)
      reads d, d.Handles(), d.outbox
    {
      && (n in entries <==> n in d.properties && n != CONFIG_PERSISTED)
      && (n in entries ==>
            var p, e := d.properties[n], entries[n];
            && p.vector == e.vector && p.policy == e.policy && p.persist == e.persist
            && e.which < |handles| && handles[e.which] == p
            && n in d.Seen() && d.Seen()[n] == e.told)
    }

    ghost predicate HandlesKept(t: State, handles: seq<BoundProperty>)
      reads handles
    {
      && |handles| == |t.made|
      && (forall i, j :: 0 <= i < j < |handles| ==> handles[i] != handles[j])
      && (forall i :: 0 <= i < |handles| ==> handles[i].vector.name == t.made[i])
    }

    /** No handle a driver holds is the list's. */
    lemma ListApart()
      requires Valid()
      ensures forall i :: 0 <= i < |made| ==> made[i] !in d.ListHandle()
      ensures CONFIG_PERSISTED !in s.entries
    {
      assert d.RegisteredAt(CONFIG_PERSISTED) && EntryInv(s, CONFIG_PERSISTED, x);
      forall i | 0 <= i < |made| ensures made[i] !in d.ListHandle() {
        assert made[i].vector.name == s.made[i] && s.made[i] in s.made;
      }
    }

    /** The persisted names are the model's. */
    lemma KeptIsListed(t: State, handles: seq<BoundProperty>)
      requires d.names == t.order && (forall n :: Mirrored(t.entries, handles, n))
      requires CONFIG_PERSISTED in d.properties ==> !d.properties[CONFIG_PERSISTED].persist
      ensures Kept(d.names, d.properties) == Listed(t)
    {
      forall n | n in d.properties && d.properties[n].persist ensures n in t.entries && t.entries[n].persist {
        assert Mirrored(t.entries, handles, n);
      }
      forall n | n in t.entries && t.entries[n].persist ensures n in d.properties && d.properties[n].persist {
        assert Mirrored(t.entries, handles, n);
      }
      SameNames(t.order, d.properties, t.entries);
    }

    /** An exact list states the model's names. */
    lemma StatedIsListed(t: State, handles: seq<BoundProperty>)
      requires d.Valid() && d.names == t.order && (forall n :: Mirrored(t.entries, handles, n)) && d.ListIsExact()
      requires d.Stated().Some? <==> t.stated.Some?
      requires t.stated.Some? ==> t.stated.value == Listed(t)
      ensures d.Stated() == StatedText(t)
    {
      hide ListText, KeptNames, Kept, PersistedList.Join;
      if CONFIG_PERSISTED in d.properties {
        d.ListIsTold();
        KeptIsListed(t, handles);
      }
    }

    /** A list is truthful exactly when it misleads no client. */
    lemma TruthfulIsHonest(t: State, handles: seq<BoundProperty>)
      requires d.Valid() && (forall n :: Mirrored(t.entries, handles, n)) && d.Stated() == StatedText(t)
      requires t.stated.Some? ==> forall n :: n in t.stated.value ==> PersistedList.NoSpace(n) && n != CONFIG_PERSISTED
      ensures Truthful(t) <==> Honest(d.Told())
    {
      hide CONFIG_PERSISTED, PersistedList.NoSpace, PersistedList.Join;
      if CONFIG_PERSISTED in d.properties {
        d.ListIsTold();
        d.ToldIsRegistered();
        forall n | n != CONFIG_PERSISTED ensures n in t.entries <==> n in d.Told() {
          assert Mirrored(t.entries, handles, n);
        }
        StaleListMisleads(d.Told(), t.stated.value);
      } else {
        d.NoListTold();
      }
    }

    /** The device is as the model has it but for one property, the order and the list. */
    ghost predicate MirrorsBut(n0: string)
      reads this, d, d.Handles(), d.outbox, made
    {
      && (forall n :: n != n0 ==> Mirrored(s.entries, made, n)) && HandlesKept(s, made)
      && d.config == s.config && d.setupDone == s.setupDone && (s.honest <==> d.AllHonest())
      && (d.Stated().Some? <==> s.stated.Some?)
    }

    /** A property has just been defined on the device. */
    ghost predicate Holds(v: Vector, policy: Policy, persist: bool, handle: BoundProperty)
      reads this, d, d.Handles(), d.outbox, handle
    {
      && v.name in d.properties && d.properties[v.name] == handle && handle !in made
      && d.names == (if v.name in s.entries then s.order else s.order + [v.name])
      && handle.vector.name == v.name
      && handle.vector == (if persist && v.name in s.config then Restored(v.(device := x.device), s.config[v.name])
                           else v.(device := x.device))
      && handle.policy == policy && handle.persist == persist
      && v.name in d.Seen() && d.Seen()[v.name] == handle.vector
    }

    method DefineOnDevice(v: Vector, policy: Policy, persist: bool, time: int) returns (prop: Option<BoundProperty>)
      requires Valid() && Permitted(Defining(v, policy, persist), x)
      modifies repr
      ensures d.Valid() && unchanged(this) && (prop.Some? ==> fresh(prop.value))
      ensures prop.None? <==> persist && (!Persistable(v.kind) || !PersistedList.NoSpace(v.name))
      ensures d.properties == if prop.Some? then old(d.properties)[v.name := prop.value] else old(d.properties)
      ensures prop.None? ==> Mirrors()
      ensures prop.Some? ==> MirrorsBut(v.name) && Holds(v, policy, persist, prop.value)
      ensures prop.Some? ==> if persist then d.ListIsExact() else d.Stated() == StatedText(s)
    {
      hide CONFIG_PERSISTED, Device.ValidWith, WellFormed, PersistedList.NoSpace, Restored, Device.InStep,
           Device.AllHonest, Device.ListIsExact, Persistable, EntryInv, KeptNames, Kept, PersistedList.Join, ListText,
           Device.Seen, Inv;
      ListApart();
      assert Mirrored(s.entries, made, v.name);
      prop := d.Define(v, policy, persist, time);
      forall n | n != v.name || prop.None? ensures Mirrored(s.entries, made, n) {
        assert old(Mirrored(s.entries, made, n));
      }
      if prop.Some? {
        d.RegisteredUnderItsName(v.name);
      }
    }

    lemma DefinedMirrors(v: Vector, policy: Policy, persist: bool, handle: BoundProperty)
      requires d.Valid() && MirrorsBut(v.name) && Holds(v, policy, persist, handle) && v.name != CONFIG_PERSISTED
      requires !(persist && (!Persistable(v.kind) || !PersistedList.NoSpace(v.name)))
      requires if persist then d.ListIsExact() else d.Stated() == StatedText(s)
      ensures MirrorsIn(AfterDefining(s, v, policy, persist, x), made + [handle])
    {
      hide CONFIG_PERSISTED, Device.ValidWith, PersistedList.NoSpace, Restored, Persistable, Device.AllHonest,
           Device.ListIsExact, KeptNames, Kept, PersistedList.Join, ListText, Device.Seen, Device.Stated;
      var next := AfterDefining(s, v, policy, persist, x);
      forall n ensures Mirrored(next.entries, made + [handle], n) {
        assert n != v.name ==> Mirrored(s.entries, made, n);
      }
      if persist {
        StatedIsListed(next, made + [handle]);
      }
    }

    /** Defining a property is the model's step. */
    method Define(v: Vector, policy: Policy, persist: bool, time: int)
      requires Valid() && Permitted(Defining(v, policy, persist), x)
      modifies this`made, this`repr, this`s, repr
      ensures Valid() && fresh(repr - old(repr)) && old(made) <= made && s == AfterDefining(old(s), v, policy, persist, x)
    {
      hide CONFIG_PERSISTED, Device.ValidWith, AfterDefining, Mirrored, HandlesKept, Inv, Device.AllHonest,
           Device.Stated, Device.Seen, Holds, MirrorsBut, Device.ListIsExact, WellFormed;
      if persist && (!Persistable(v.kind) || !PersistedList.NoSpace(v.name)) {
        DefiningRefused(s, v, policy, x);
      }
      DefiningKeepsInv(s, v, policy, persist, x);
      var prop := DefineOnDevice(v, policy, persist, time);
      if prop.Some? {
        DefinedMirrors(v, policy, persist, prop.value);
      }
      ghost var handles: set<object> := d.Handles();
      assert this !in handles;
      s := AfterDefining(s, v, policy, persist, x);
      if prop.Some? {
        made := made + [prop.value];
        repr := repr + {prop.value};
      }
    }

    method UpdateOnDevice(name: string, edit: Edit, time: int)
      requires Valid() && name in s.entries
      modifies repr
      ensures d.Valid() && unchanged(this) && MirrorsBut(name) && d.properties == old(d.properties)
      ensures d.names == s.order && d.Stated() == StatedText(s) && name in d.properties && name in d.Seen()
      ensures var e := s.entries[name];
              (d.properties[name].vector, d.Seen()[name]) == Pushed(e.policy, e.vector, e.told, edit, time, x.render)
    {
      hide CONFIG_PERSISTED, Device.ValidWith, Device.InStep, Device.AllHonest, Device.ListIsExact, EntryInv, Device.Seen,
           BoundProperty.Performed, Edited, Pushed, Inv, RefusedBy, Shows;
      assert Mirrored(s.entries, made, name);
      d.Apart(name);
      d.RegisteredUnderItsName(name);
      var fault, rejected := d.Update(name, edit, time);
      forall n | n != name ensures Mirrored(s.entries, made, n) {
        assert old(Mirrored(s.entries, made, n));
      }
      d.RegisteredUnderItsName(name);
    }

    lemma UpdatedMirrors(name: string, handle: BoundProperty, edit: Edit, time: int)
      requires MirrorsBut(name) && name in s.entries && name != CONFIG_PERSISTED
      requires d.names == s.order && d.Stated() == StatedText(s) && name in d.Seen()
      requires var e := s.entries[name];
               && name in d.properties && d.properties[name] == handle
               && e.which < |made| && handle == made[e.which] && handle.policy == e.policy && handle.persist == e.persist
               && (handle.vector, d.Seen()[name]) == Pushed(e.policy, e.vector, e.told, edit, time, x.render)
      ensures MirrorsIn(AfterUpdating(s, name, edit, time, x), made)
    {
      hide CONFIG_PERSISTED, Device.AllHonest, Device.Seen, Device.Stated, Pushed;
      var next := AfterUpdating(s, name, edit, time, x);
      forall n ensures Mirrored(next.entries, made, n) {
        assert n != name ==> Mirrored(s.entries, made, n);
      }
    }

    /** `set`, `set_all` or `select` on the registered handle of a name. */
    method Update(name: string, edit: Edit, time: int)
      requires Valid() && name != CONFIG_PERSISTED
      modifies this`s, repr
      ensures Valid() && made == old(made) && repr == old(repr) && s == AfterUpdating(old(s), name, edit, time, x)
    {
      hide CONFIG_PERSISTED, Device.ValidWith, AfterEdit, HandlesKept, Inv, Device.AllHonest, Device.Stated, Device.Seen;
      assert Mirrored(s.entries, made, name);
      hide Mirrored, MirrorsBut, Pushed;
      if name in d.properties {
        UpdatingKeepsInv(s, name, edit, time, x);
        UpdateOnDevice(name, edit, time);
        UpdatedMirrors(name, d.properties[name], edit, time);
        ghost var handles: set<object> := d.Handles();
        assert this !in handles;
        s := AfterUpdating(s, name, edit, time, x);
      }
    }

    /** A property has just left the device. */
    ghost predicate Gone(n: string)
      reads this, d, d.Handles(), d.outbox, made
    {
      && HandlesKept(s, made) && (forall m :: m != n ==> Mirrored(s.entries, made, m))
      && n !in d.properties && d.names == Without(s.order, n) && d.setupDone == s.setupDone
      && d.config == (if n in s.entries && s.entries[n].persist then s.config[n := ValuesIn(s.entries[n], x)] else s.config)
      && (d.AllHonest() <==> s.honest && Honest(d.Told()))
      && (if n in s.entries && s.entries[n].persist then d.ListIsExact() && (d.Stated().Some? <==> s.stated.Some?)
          else d.Stated() == if n == CONFIG_PERSISTED then None else StatedText(s))
    }

    lemma GoneMirrored(n: string)
      requires Inv(s, x) && Gone(n) && (n in s.entries || (n == CONFIG_PERSISTED && s.stated.Some?))
      ensures forall m :: Mirrored(AfterForgetting(s, n, x).entries, made, m)
      ensures HandlesKept(AfterForgetting(s, n, x), made)
    {
      assert EntryInv(s, CONFIG_PERSISTED, x);
      hide Device.AllHonest, Device.ListIsExact, KeptNames, Device.Seen, Device.Stated, Without, ValuesOf, Sound,
           Honest, Truthful;
      forall m ensures Mirrored(AfterForgetting(s, n, x).entries, made, m) {
        assert m != n ==> Mirrored(s.entries, made, m);
      }
    }

    lemma GoneMirrors(n: string)
      requires d.Valid() && Inv(s, x) && Gone(n) && (n in s.entries || (n == CONFIG_PERSISTED && s.stated.Some?))
      ensures MirrorsIn(AfterForgetting(s, n, x), made)
    {
      ForgettingKeepsInv(s, n, x);
      assert EntryInv(s, CONFIG_PERSISTED, x);
      hide EntryInv, Device.ValidWith, PersistedList.NoSpace, Device.AllHonest, Device.ListIsExact, KeptNames, Kept,
           PersistedList.Join, ListText, Device.Seen, Device.Stated, Without, ValuesOf, Sound, Honest, Truthful, Mirrored,
           HandlesKept;
      GoneMirrored(n);
      ForgottenHonestly(s, n, x);
      var next := AfterForgetting(s, n, x);
      if n in s.entries && s.entries[n].persist {
        StatedIsListed(next, made);
      }
      TruthfulIsHonest(next, made);
    }

    /** A property is as the model has it while nothing of it, nor of what was told, moves. */
    twostate lemma MirrorStands(n: string)
      requires old(Mirrored(s.entries, made, n)) && s == old(s) && made == old(made)
      requires n != CONFIG_PERSISTED ==>
                 && (n in d.properties <==> n in old(d.properties))
                 && (n in d.properties ==>
                       && d.properties[n] == old(d.properties[n]) && d.properties[n].vector == old(d.properties[n].vector)
                       && n in d.Seen() && n in old(d.Seen()) && d.Seen()[n] == old(d.Seen()[n]))
      ensures Mirrored(s.entries, made, n)
    {
      hide Device.Seen;
    }

    lemma HonestHere()
      requires d.Valid()
      ensures d.AllHonest() ==> Honest(d.Told())
    {
      hide Honest;
      if d.AllHonest() {
        d.HonestNow();
      }
    }

    twostate lemma HandlesStay()
      requires old(HandlesKept(s, made)) && s == old(s) && made == old(made)
      requires forall i :: 0 <= i < |made| ==> made[i].vector == old(made[i].vector)
      ensures HandlesKept(s, made)
    {
    }

    method WithdrawOnDevice(name: string, why: Option<string>, time: int)
      requires Valid()
      modifies repr
      ensures d.Valid() && unchanged(this) && d.properties == old(d.properties) - {name}
      ensures if name in old(d.properties) then Gone(name) else Mirrors()
    {
      hide CONFIG_PERSISTED, Device.ValidWith, Device.InStep, Device.AllHonest, Device.ListIsExact, EntryInv, Device.Seen,
           Inv, ValuesOf, Honest, Without, HandlesKept;
      ListApart();
      ListUnsaved();
      assert Mirrored(s.entries, made, name);
      d.DeleteProperty(name, why, time);
      HonestHere();
      HandlesStay();
      forall n | n != name || name !in old(d.properties) ensures Mirrored(s.entries, made, n) {
        MirrorStands(n);
      }
    }

    lemma ListUnsaved()
      requires d.Valid()
      ensures CONFIG_PERSISTED in d.properties ==> !d.properties[CONFIG_PERSISTED].persist
    {
    }

    /** `delete_property`: the list of saved properties may be withdrawn too. */
    method Withdraw(name: string, why: Option<string>, time: int)
      requires Valid()
      modifies this`s, repr
      ensures Valid() && made == old(made) && repr == old(repr) && s == AfterForgetting(old(s), name, x)
    {
      hide Device.ValidWith, HandlesKept, Inv, Device.AllHonest, Device.Stated, Device.Seen, Gone, Mirrored,
           AfterForgetting, CONFIG_PERSISTED;
      ForgettingKeepsInv(s, name, x);
      Registers(name);
      WithdrawOnDevice(name, why, time);
      if name in s.entries || (name == CONFIG_PERSISTED && s.stated.Some?) {
        GoneMirrors(name);
      }
      ghost var handles: set<object> := d.Handles();
      assert this !in handles;
      s := AfterForgetting(s, name, x);
    }

    lemma Registers(name: string)
      requires Valid()
      ensures name in d.properties <==> name in s.entries || (name == CONFIG_PERSISTED && s.stated.Some?)
      ensures name !in d.properties ==> AfterForgetting(s, name, x) == s
    {
      assert Mirrored(s.entries, made, name) && EntryInv(s, CONFIG_PERSISTED, x);
      hide Device.ValidWith, Sound, ListText;
    }

    /** The model's handle owns what the device's does. */
    lemma OwnsAlike(which: nat)
      requires Valid() && which < |made|
      ensures var n := made[which].vector.name;
              && n == s.made[which] && n != CONFIG_PERSISTED
              && (n in d.properties && d.properties[n] == made[which] <==> OwnedBy(s, which) == Some(n))
              && (OwnedBy(s, which).Some? ==> OwnedBy(s, which) == Some(n))
    {
      var n := s.made[which];
      assert Mirrored(s.entries, made, n) && EntryInv(s, CONFIG_PERSISTED, x);
      assert s.made[which] in s.made;
      hide Device.ValidWith, Device.AllHonest, Device.Seen, Device.Stated, Sound;
    }

    method WithdrawHandleOnDevice(which: nat, why: Option<string>, time: int)
      requires Valid() && which < |made|
      modifies repr
      ensures d.Valid() && unchanged(this) && d.properties.Keys <= old(d.properties).Keys
      ensures forall n :: n in d.properties ==> d.properties[n] == old(d.properties)[n]
      ensures match OwnedBy(s, which) case Some(n) => Gone(n) case None => Mirrors()
    {
      hide CONFIG_PERSISTED, Device.ValidWith, Device.InStep, Device.AllHonest, Device.ListIsExact, EntryInv, Device.Seen,
           Inv, ValuesOf, Honest, Without, OwnedBy, ListText, PersistedList.Join,
           HandlesKept;
      ListApart();
      ListUnsaved();
      OwnsAlike(which);
      ghost var name := made[which].vector.name;
      assert Mirrored(s.entries, made, name);
      d.Withdraw(made[which], why, time);
      HonestHere();
      HandlesStay();
      forall n | n != name || OwnedBy(s, which).None? ensures Mirrored(s.entries, made, n) {
        MirrorStands(n);
      }
    }

    /** `delete` on a handle kept from earlier, whatever became of its property. */
    method WithdrawHandle(which: nat, why: Option<string>, time: int)
      requires Valid()
      modifies this`s, repr
      ensures Valid() && made == old(made) && repr == old(repr) && s == AfterWithdrawing(old(s), which, x)
    {
      hide Device.ValidWith, HandlesKept, Device.AllHonest, Device.Stated, Device.Seen, Gone, Sound,
           ValuesOf, KeptNames, Without, Mirrored, ListText;
      HandlesNumbered();
      if which < |made| {
        WithdrawHandleOnDevice(which, why, time);
        if OwnedBy(s, which).Some? {
          ForgettingKeepsInv(s, s.made[which], x);
          GoneMirrors(s.made[which]);
        }
        ghost var handles: set<object> := d.Handles();
        assert this !in handles;
        s := AfterWithdrawing(s, which, x);
      }
    }

    lemma HandlesNumbered()
      requires Mirrors()
      ensures |made| == |s.made|
    {
    }

    method SaveOnDevice() returns (document: map<string, Saved>)
      requires Valid()
      modifies repr
      ensures d.Valid() && unchanged(this) && d.properties == old(d.properties)
      ensures MirrorsIn(AfterSaving(s, x), made) && document == AfterSaving(s, x).config
    {
      hide Device.ValidWith, Device.InStep, Device.AllHonest, Device.ListIsExact, EntryInv, Device.Seen, Device.Stated,
           Inv, ValuesOf;
      ListUnsaved();
      document := d.SaveConfig();
      ghost var next := AfterSaving(s, x);
      forall n ensures Mirrored(next.entries, made, n) {
        assert old(Mirrored(s.entries, made, n));
      }
      SavedAlike(document);
    }

    lemma SavedAlike(document: map<string, Saved>)
      requires forall n :: Mirrored(s.entries, made, n)
      requires CONFIG_PERSISTED in d.properties ==> !d.properties[CONFIG_PERSISTED].persist
      requires x.show == d.show
      requires forall n :: n in d.properties && d.properties[n].persist ==>
                 n in document && document[n] == ValuesOf(d.properties[n].vector.elements, d.show)
      requires forall n :: !(n in d.properties && d.properties[n].persist) ==>
                 (n in document <==> n in s.config) && (n in document ==> document[n] == s.config[n])
      ensures document == AfterSaving(s, x).config
    {
      hide ValuesOf, Device.Seen;
      var config := AfterSaving(s, x).config;
      forall n ensures (n in document <==> n in config) && (n in document ==> document[n] == config[n]) {
        assert Mirrored(s.entries, made, n);
      }
    }

    /** `save_config`: the document is the model's configuration. */
    method Save() returns (document: map<string, Saved>)
      requires Valid()
      modifies this`s, repr
      ensures Valid() && made == old(made) && repr == old(repr) && s == AfterSaving(old(s), x) && document == s.config
    {
      hide CONFIG_PERSISTED, Device.ValidWith, AfterSaving, HandlesKept, Mirrored, Inv, Device.AllHonest, Device.Stated,
           Device.Seen;
      SavingKeepsInv(s, x);
      document := SaveOnDevice();
      ghost var handles: set<object> := d.Handles();
      assert this !in handles;
      s := AfterSaving(s, x);
    }

    /** The model's vectors, and what the client holds of them, are these. */
    ghost predicate Reads(was: map<string, Vector>, held: map<string, Vector>)
      reads this
    {
      forall n :: n in s.entries ==>
        n in was && was[n] == s.entries[n].vector && n in held && held[n] == s.entries[n].told
    }

    lemma ReadsThem()
      requires Mirrors()
      ensures Reads(d.Vectors(), d.Seen())
    {
      forall n | n in s.entries ensures n in d.Vectors() && d.Vectors()[n] == s.entries[n].vector && n in d.Seen()
                                        && d.Seen()[n] == s.entries[n].told {
        assert Mirrored(s.entries, made, n);
      }
    }

    method LoadOnDevice(document: map<string, Saved>, order: seq<string>, time: int) returns (applied: seq<string>)
      requires Valid() && Orders(order, document)
      modifies repr
      ensures d.Valid() && unchanged(this) && d.properties == old(d.properties)
      ensures d.names == s.order && d.setupDone == s.setupDone && d.config == s.config + document
      ensures HandlesKept(s, made) && d.Stated() == StatedText(s) && (s.honest <==> d.AllHonest())
      ensures forall n :: n in applied <==> n in document && n in d.properties && d.properties[n].persist
      ensures Taken(d.properties, old(d.Vectors()), old(d.Seen()), d.Vectors(), d.Seen(), document, applied, time, x.render)
    {
      hide CONFIG_PERSISTED, Device.ValidWith, Device.InStep, Device.AllHonest, Device.ListIsExact, EntryInv, Device.Seen,
           Device.Stated, Inv, Orders, RefusedOf, Taken, Mirrored, Device.Vectors;
      d.AllUnderTheirNames();
      var refused;
      applied, refused := d.LoadConfig(document, order, time);
      d.AllUnderTheirNames();
      forall i | 0 <= i < |made| ensures made[i].vector.name == s.made[i] {
        if made[i] in d.Handles() {
          var n :| n in d.properties && d.properties[n] == made[i];
        }
      }
    }

    lemma LoadedMirrors(was: map<string, Vector>, held: map<string, Vector>, document: map<string, Saved>,
                        applied: seq<string>, time: int)
      requires Reads(was, held) && HandlesKept(s, made) && Inv(s, x)
      requires forall n :: n in s.entries ==> Registered(n)
      requires forall n :: n in d.properties && n != CONFIG_PERSISTED ==> n in s.entries
      requires d.names == s.order && d.setupDone == s.setupDone && d.config == s.config + document
      requires d.Stated() == StatedText(s) && (s.honest <==> d.AllHonest())
      requires forall n :: n in applied <==> n in document && n in d.properties && d.properties[n].persist
      requires Taken(d.properties, was, held, d.Vectors(), d.Seen(), document, applied, time, x.render)
      ensures MirrorsIn(AfterLoading(s, document, time, x), made)
    {
      hide Device.AllHonest, Device.Seen, Device.Stated, Pushed, HandlesKept, Sound, Device.Vectors, CONFIG_PERSISTED;
      var next := AfterLoading(s, document, time, x);
      forall n ensures Mirrored(next.entries, made, n) {
        assert EntryInv(s, n, x);
        d.VectorsAre(n);
        assert n in s.entries ==> Registered(n);
      }
      SameHandles(next);
    }

    lemma SameHandles(t: State)
      requires HandlesKept(s, made) && t.made == s.made
      ensures HandlesKept(t, made)
    {
    }

    /** The registered handle is the model's, whatever it holds. */
    ghost predicate Registered(n: string)
      reads this, d
    {
      && n in s.entries && n in d.properties && s.entries[n].which < |made| && d.properties[n] == made[s.entries[n].which]
      && d.properties[n].policy == s.entries[n].policy && d.properties[n].persist == s.entries[n].persist
    }

    lemma AllRegistered()
      requires Mirrors()
      ensures forall n :: n in s.entries ==> Registered(n)
      ensures forall n :: n in d.properties && n != CONFIG_PERSISTED ==> n in s.entries
    {
      forall n ensures (n in s.entries ==> Registered(n)) && (n in d.properties && n != CONFIG_PERSISTED ==> n in s.entries) {
        assert Mirrored(s.entries, made, n);
      }
    }

    /** `load_config` over a document. */
    method Load(document: map<string, Saved>, order: seq<string>, time: int)
      requires Valid() && Orders(order, document)
      modifies this`s, repr
      ensures Valid() && made == old(made) && repr == old(repr) && s == AfterLoading(old(s), document, time, x)
    {
      hide CONFIG_PERSISTED, Device.ValidWith, AfterLoading, HandlesKept, Mirrored, Inv, Device.AllHonest, Device.Stated,
           Device.Seen, Orders, Taken, Device.Vectors, Reads;
      LoadingKeepsInv(s, document, time, x);
      ghost var was, held := d.Vectors(), d.Seen();
      ReadsThem();
      AllRegistered();
      var applied := LoadOnDevice(document, order, time);
      ghost var handles: set<object> := d.Handles();
      assert this !in handles;
      LoadedMirrors(was, held, document, applied, time);
      s := AfterLoading(s, document, time, x);
    }

    /** The model's handles survive what only tells the client. */
    lemma ToldMirrors(next: State)
      requires Inv(s, x) && HandlesKept(s, made) && (forall n :: n in s.entries ==> Registered(n))
      requires forall n :: n in s.entries ==> n in d.properties && d.properties[n].vector == s.entries[n].vector
      requires forall n :: n in d.properties && n != CONFIG_PERSISTED ==> n in s.entries
      requires forall n :: n in d.properties ==> n in d.Told() && d.Told()[n] == d.properties[n].vector
      requires next == AfterAnnouncing(s) && d.names == next.order && d.setupDone == next.setupDone && d.config == next.config
      requires d.Stated() == StatedText(next) && (next.honest <==> d.AllHonest())
      ensures MirrorsIn(next, made)
    {
      hide Device.AllHonest, Device.Seen, Device.Stated, HandlesKept, Sound, CONFIG_PERSISTED;
      forall n ensures Mirrored(next.entries, made, n) {
        assert EntryInv(s, n, x) && (n in s.entries ==> Registered(n));
        if n in s.entries {
          d.SeenWhereTold(n);
        }
      }
      SameHandles(next);
    }

    /** A later `getProperties`: everything announced again. */
    method Announce()
      requires Valid()
      modifies this`s, repr
      ensures Valid() && made == old(made) && repr == old(repr) && s == AfterAnnouncing(old(s))
    {
      hide CONFIG_PERSISTED, Device.ValidWith, AfterAnnouncing, HandlesKept, Mirrored, Inv, Device.AllHonest, Device.Stated,
           Device.Seen, Device.AllInStep, Device.Definitions, Registered;
      AnnouncingKeepsInv(s, x);
      AllRegistered();
      AllHold();
      d.AnnounceAll();
      ghost var handles: set<object> := d.Handles();
      assert this !in handles && d.outbox !in handles;
      AnnouncedSame(s);
      ToldMirrors(AfterAnnouncing(s));
      s := AfterAnnouncing(s);
    }

    lemma AllHold()
      requires Mirrors()
      ensures forall n :: n in s.entries ==> n in d.properties && d.properties[n].vector == s.entries[n].vector
    {
      forall n | n in s.entries ensures n in d.properties && d.properties[n].vector == s.entries[n].vector {
        assert Mirrored(s.entries, made, n);
      }
    }

    /** The setup is latched before it runs. */
    method Begin()
      requires Valid() && !s.setupDone
      modifies this`s, repr
      ensures Valid() && repr == old(repr) && s == old(s).(setupDone := true) && d.properties == old(d.properties)
      ensures d.names == old(d.names) && made == old(made)
    {
      hide CONFIG_PERSISTED, Device.ValidWith, Inv, Device.AllHonest, Device.Stated, Device.Seen;
      BegunKeepsInv(s, x);
      d.Latch(true);
      ghost var handles: set<object> := d.Handles();
      assert this !in handles;
      label Done:
      s := s.(setupDone := true);
      forall n ensures Mirrored(s.entries, made, n) {
        assert old(Mirrored(s.entries, made, n));
      }
    }

    method PublishOnDevice(time: int)
      requires Valid() && s.setupDone
      modifies repr
      ensures d.Valid() && unchanged(this)
      ensures forall n :: n in d.properties ==> d.properties[n] in repr || fresh(d.properties[n])
      ensures MirrorsIn(AfterPublishing(s), made)
    {
      hide Device.ValidWith, Device.InStep, Device.AllHonest, Device.ListIsExact, EntryInv, KeptNames, Kept,
           PersistedList.Join, ListText, Device.Seen, Inv;
      assert Mirrored(s.entries, made, CONFIG_PROCESS);
      if CONFIG_PERSISTED !in d.properties {
        KeptIsListed(s, made);
      }
      d.PublishPersisted(time);
      ghost var next := AfterPublishing(s);
      forall n ensures Mirrored(next.entries, made, n) {
        assert old(Mirrored(s.entries, made, n));
      }
    }

    /** The end of a setup that returned: the list is published. */
    method Publish(time: int)
      requires Valid() && s.setupDone
      modifies this`s, this`repr, repr
      ensures Valid() && made == old(made) && fresh(repr - old(repr)) && s == AfterPublishing(old(s))
    {
      hide CONFIG_PERSISTED, Device.ValidWith, AfterPublishing, HandlesKept, Mirrored, Inv, Device.AllHonest, Device.Stated,
           Device.Seen;
      PublishingKeepsInv(s, x);
      PublishOnDevice(time);
      ghost var handles: set<object> := d.Handles();
      assert this !in handles;
      s := AfterPublishing(s);
      repr := repr + handles;
    }

    /** The handles announced before a setup are the model's. */
    ghost predicate WereAnnounced(before: State, announced: map<string, BoundProperty>, handles: seq<BoundProperty>)
    {
      forall n ::
        && (n in announced <==> n in before.entries)
        && (n in announced ==> before.entries[n].which < |handles| && handles[before.entries[n].which] == announced[n])
    }

    /** These are the registered handles, with what they hold. */
    ghost predicate WereRegistered(was: map<string, BoundProperty>)
      reads this, made
    {
      forall n ::
        && (n in was <==> n in s.entries)
        && (n in was ==> var e := s.entries[n];
              && e.which < |made| && was[n] == made[e.which] && was[n].policy == e.policy && was[n].persist == e.persist
              && was[n].vector == e.vector)
    }

    lemma RegisteredAre()
      requires Mirrors() && CONFIG_PERSISTED !in d.properties
      ensures WereRegistered(d.properties)
      ensures d.Saveable() == Savings(s, Context(d.device, d.render, d.show))
    {
      hide ValuesOf, Device.Seen;
      forall n ensures (n in d.properties <==> n in s.entries)
        && (n in d.properties ==> var e := s.entries[n];
              && e.which < |made| && d.properties[n] == made[e.which] && d.properties[n].policy == e.policy
              && d.properties[n].persist == e.persist && d.properties[n].vector == e.vector)
      {
        assert Mirrored(s.entries, made, n);
      }
    }

    lemma SurviveAlike(before: State, announced: map<string, BoundProperty>, was: map<string, BoundProperty>)
      requires WereRegistered(was) && WereAnnounced(before, announced, made) && HandlesKept(s, made)
      ensures forall n :: Survives(was, announced, n) <==> Survived(before, s, n)
    {
    }

    lemma FailedMirroredAt(next: State, announced: map<string, BoundProperty>, was: map<string, BoundProperty>, n: string)
      requires EntryInv(s, n, x) && WereRegistered(was) && n != CONFIG_PERSISTED
      requires n in d.properties ==> n in d.Told() && d.Told()[n] == d.properties[n].vector
      requires n in d.properties ==> n in was && d.properties[n] == was[n]
      requires n in next.entries <==> n in d.properties
      requires n in next.entries && n in s.entries ==> next.entries[n] == s.entries[n].(told := s.entries[n].vector)
      ensures Mirrored(next.entries, made, n)
    {
      hide Device.Seen, EntryInv;
      if n in d.properties {
        d.SeenWhereTold(n);
      }
    }

    /** What a rollback leaves on the device. */
    ghost predicate RolledBack(before: State, announced: map<string, BoundProperty>, was: map<string, BoundProperty>)
      reads this, made, d, d.Handles(), d.outbox
    {
      && WereRegistered(was) && WereAnnounced(before, announced, made) && HandlesKept(s, made)
      && d.properties == Survivors(was, announced) && d.names == Those(before.order, d.properties.Keys)
      && (forall n :: n in d.properties ==> n in d.Told() && d.Told()[n] == d.properties[n].vector)
      && CapturedSoFar(was, Savings(s, x), d.properties, s.config, d.config)
      && s.stated.None? && CONFIG_PERSISTED !in d.properties && (s.honest <==> d.AllHonest())
    }

    lemma FailedMirrors(before: State, announced: map<string, BoundProperty>, was: map<string, BoundProperty>)
      requires Inv(s, x) && RolledBack(before, announced, was) && !d.setupDone
      ensures MirrorsIn(AfterFailing(before, s, x), made)
    {
      hide AfterFailing, CapturedSoFar, Savings, Device.AllHonest, Device.Seen, Survived, Survives, Survivors, Those,
           WereAnnounced, WereRegistered, Mirrored, EntryInv, HandlesKept;
      SurviveAlike(before, announced, was);
      RegisteredKeys(was);
      SurvivorsHold(was, announced);
      FailedSame(before, s, x);
      var next := AfterFailing(before, s, x);
      FailedConfig(before, announced, was, s, d.properties, d.config, x);
      FailedMirrored(next, announced, was);
      SameHandles(next);
      assert next.entries.Keys == d.properties.Keys;
    }

    lemma RegisteredKeys(was: map<string, BoundProperty>)
      requires WereRegistered(was)
      ensures forall n :: n in was <==> n in s.entries
    {
    }

    lemma FailedMirrored(next: State, announced: map<string, BoundProperty>, was: map<string, BoundProperty>)
      requires (forall n :: EntryInv(s, n, x)) && WereRegistered(was) && CONFIG_PERSISTED !in d.properties
      requires forall n :: n in d.properties ==> n in d.Told() && d.Told()[n] == d.properties[n].vector
      requires forall n :: n in d.properties ==> n in was && d.properties[n] == was[n]
      requires forall n :: n in next.entries <==> n in d.properties
      requires forall n :: n in next.entries ==> n in s.entries && next.entries[n] == s.entries[n].(told := s.entries[n].vector)
      ensures forall n :: Mirrored(next.entries, made, n)
    {
      hide Device.Seen, EntryInv, WereRegistered, Mirrored, CONFIG_PERSISTED;
      forall n ensures Mirrored(next.entries, made, n) {
        if n == CONFIG_PERSISTED {
          NotMirrored(next.entries, n);
        } else {
          assert EntryInv(s, n, x);
          FailedMirroredAt(next, announced, was, n);
        }
      }
    }

    lemma NotMirrored(entries: map<string, Entry>, n: string)
      requires n !in entries && n == CONFIG_PERSISTED
      ensures Mirrored(entries, made, n)
    {
    }

    twostate lemma HandlesStand(was: map<string, BoundProperty>)
      requires unchanged(this) && forall i :: 0 <= i < |made| ==> made[i].vector == old(made[i].vector)
      requires old(WereRegistered(was)) && old(HandlesKept(s, made))
      ensures WereRegistered(was) && HandlesKept(s, made)
    {
    }

    method RollBackOnly(ghost before: State, announced: map<string, BoundProperty>, order: seq<string>, why: string, time: int)
      requires Valid() && s.stated.None? && WereAnnounced(before, announced, made) && order == before.order
      requires Orders(order, announced)
      modifies repr
      ensures d.Valid() && unchanged(this) && RolledBack(before, announced, old(d.properties))
    {
      hide Device.ValidWith, Device.InStep, Device.AllHonest, Device.AllInStep, EntryInv, Device.Seen, Inv, ValuesOf,
           Survivors, CapturedSoFar, Device.Saveable, Those, WereAnnounced, Mirrored, Orders, Device.Definitions, WereRegistered, HandlesKept;
      RegisteredAre();
      d.RollBackSetup(announced, order, why, time);
      HandlesStand(old(d.properties));
    }

    method RollBackOnDevice(ghost before: State, announced: map<string, BoundProperty>, order: seq<string>, why: string,
                            time: int)
      requires Valid() && s.stated.None? && WereAnnounced(before, announced, made) && order == before.order
      requires Orders(order, announced)
      modifies repr
      ensures d.Valid() && unchanged(this) && d.properties == Survivors(old(d.properties), announced)
      ensures MirrorsIn(AfterFailing(before, s, x), made)
    {
      hide Device.ValidWith, Device.InStep, Device.AllHonest, EntryInv, Device.Seen, Inv, Survivors, CapturedSoFar, Those,
           WereAnnounced, Orders;
      ghost var was := d.properties;
      RollBackOnly(before, announced, order, why, time);
      d.Latch(false);
      FailedMirrors(before, announced, was);
    }

    /** The end of a setup that raised: back to what was announced before it. */
    method Fail(ghost before: State, announced: map<string, BoundProperty>, order: seq<string>, why: string, time: int)
      requires Valid() && s.stated.None? && WereAnnounced(before, announced, made) && order == before.order
      requires Orders(order, announced) && Inv(before, x)
      modifies this`s, repr
      ensures Valid() && made == old(made) && repr == old(repr) && s == AfterFailing(before, old(s), x)
      ensures d.properties == Survivors(old(d.properties), announced)
    {
      hide CONFIG_PERSISTED, Device.ValidWith, AfterFailing, HandlesKept, Mirrored, Inv, Device.AllHonest, Device.Stated,
           Device.Seen, WereAnnounced, Orders;
      FailingKeepsInv(before, s, x);
      ghost var was := d.properties;
      RollBackOnDevice(before, announced, order, why, time);
      ghost var handles: set<object> := d.Handles();
      assert forall n :: n in d.properties ==> n in was && d.properties[n] == was[n];
      assert this !in handles;
      s := AfterFailing(before, s, x);
    }

    /** One call a driver makes is the model's step. */
    method Perform(timed: Timed)
      requires Valid() && Permitted(timed.call, x)
      modifies this`made, this`repr, this`s, repr
      ensures Valid() && fresh(repr - old(repr)) && s == After(old(s), timed, x) && old(made) <= made
    {
      hide Valid, AfterDefining, AfterUpdating, AfterForgetting, AfterWithdrawing, AfterSaving, AfterLoading;
      match timed.call {
        case Defining(v, policy, persist) => Define(v, policy, persist, timed.time);
        case Updating(name, edit) => Update(name, edit, timed.time);
        case Withdrawing(name, why) => Withdraw(name, why, timed.time);
        case WithdrawingHandle(which, why) => WithdrawHandle(which, why, timed.time);
        case Saving => var document := Save();
        case Loading(document, order) => Load(document, order, timed.time);
      }
    }

    method PerformAll(calls: seq<Timed>)
      requires Valid() && AllPermitted(calls, x)
      modifies this`made, this`repr, this`s, repr
      ensures Valid() && fresh(repr - old(repr)) && s == AfterAll(old(s), calls, x) && old(made) <= made
    {
      hide Valid, Permitted, After;
      var i := 0;
      while i < |calls|
        invariant 0 <= i <= |calls| && Valid() && fresh(repr - old(repr))
        invariant s == AfterAll(old(s), calls[..i], x) && old(made) <= made
      {
        Perform(calls[i]);
        assert calls[..i + 1][..i] == calls[..i];
        i := i + 1;
      }
      assert calls[..i] == calls;
    }

    lemma NamesInOrder()
      requires Valid()
      ensures Orders(d.names, d.properties) && d.names == s.order
    {
    }

    /** Before a setup the registered handles are the model's. */
    lemma AnnouncedAre()
      requires Valid() && s.stated.None?
      ensures WereAnnounced(s, d.properties, made)
    {
      Registers(CONFIG_PERSISTED);
      ListApart();
      hide Device.ValidWith, Inv, Device.Seen, CONFIG_PERSISTED;
      forall n ensures (n in d.properties <==> n in s.entries)
        && (n in d.properties ==> s.entries[n].which < |made| && made[s.entries[n].which] == d.properties[n])
      {
        assert Mirrored(s.entries, made, n);
      }
    }

    lemma NothingStated()
      requires Valid() && !s.setupDone
      ensures s.stated.None?
    {
    }

    /** `_dispatch_get_properties`: the first request runs the setup, which is undone if
        it raises; a later one has everything announced again. */
    method Ask(setup: seq<Timed>, fails: bool, time: int)
      requires Valid() && AllPermitted(setup, x)
      modifies this`made, this`repr, this`s, repr
      ensures Valid() && fresh(repr - old(repr)) && s == AfterAsking(old(s), setup, fails, x)
    {
      hide CONFIG_PERSISTED, Valid, AllPermitted, AfterAll, AfterFailing, AfterPublishing, AfterAnnouncing, Inv, Orders,
           WereAnnounced;
      if Latched() {
        Announce();
        return;
      }
      NothingStated();
      Begun();
      Begin();
      var announced, order := d.properties, d.names;
      NamesInOrder();
      AnnouncedAre();
      ghost var begun, handles := s, made;
      CallsKeepInv(begun, setup, x);
      PerformAll(setup);
      if fails {
        StillAnnounced(begun, announced, handles);
        Fail(begun, announced, order, "setup failed", time);
      } else {
        Publish(time);
      }
    }

    predicate Latched()
      requires Valid()
      reads this, repr
      ensures Latched() == s.setupDone
    {
      d.setupDone
    }

    lemma Begun()
      requires Valid()
      ensures Inv(s, x) && Inv(s.(setupDone := true), x)
    {
      BegunKeepsInv(s, x);
    }

    lemma StillAnnounced(before: State, announced: map<string, BoundProperty>, handles: seq<BoundProperty>)
      requires handles <= made && WereAnnounced(before, announced, handles)
      ensures WereAnnounced(before, announced, made)
    {
    }

    method Handle(e: Event)
      requires Valid() && EventPermitted(e, x)
      modifies this`made, this`repr, this`s, repr
      ensures Valid() && fresh(repr - old(repr)) && s == AfterEvent(old(s), e, x)
    {
      hide Valid, After, AfterAsking;
      match e {
        case Plain(timed) => Perform(timed);
        case Asked(setup, fails, time) => Ask(setup, fails, time);
      }
    }

    /** Any run of a device ends as the model of the events says. */
    method Run(events: seq<Event>)
      requires Valid() && EventsPermitted(events, x)
      modifies this`made, this`repr, this`s, repr
      ensures Valid() && fresh(repr - old(repr)) && s == AfterEvents(old(s), events, x)
    {
      hide Valid, EventPermitted, AfterEvent;
      var i := 0;
      while i < |events|
        invariant 0 <= i <= |events| && Valid() && fresh(repr - old(repr)) && s == AfterEvents(old(s), events[..i], x)
      {
        Handle(events[i]);
        assert events[..i + 1][..i] == events[..i];
        i := i + 1;
      }
      assert events[..i] == events;
    }

    /** The model's honesty is that of every prefix of the stream. */
    lemma HonestPrefixes()
      requires d.outbox.Valid()
      ensures d.AllHonest() <==> forall i :: 0 <= i <= |d.outbox.sent| ==>
                Honest(Row(AppliedAll(map[], d.outbox.sent[..i]), d.device))
    {
      hide Honest, Row, AppliedAll;
      forall i | 0 <= i <= |d.outbox.sent| ensures d.outbox.caches[i] == AppliedAll(map[], d.outbox.sent[..i]) {
      }
      if forall i :: 0 <= i <= |d.outbox.sent| ==> Honest(Row(AppliedAll(map[], d.outbox.sent[..i]), d.device)) {
        forall i | 0 <= i < |d.outbox.caches| ensures Honest(Row(d.outbox.caches[i], d.device)) {
          assert Honest(Row(AppliedAll(map[], d.outbox.sent[..i]), d.device));
        }
      }
      if d.AllHonest() {
        forall i | 0 <= i <= |d.outbox.sent| ensures Honest(Row(AppliedAll(map[], d.outbox.sent[..i]), d.device)) {
          assert Honest(Row(d.outbox.caches[i], d.device));
        }
      }
    }

    /** A client that folded everything emitted holds exactly the registered properties, as
        the model tells. */
    lemma ClientHolds()
      requires Valid()
      ensures d.outbox.Told() == AppliedAll(map[], d.outbox.sent)
      ensures d.Told().Keys == d.properties.Keys
      ensures forall n :: n in d.properties && n != CONFIG_PERSISTED <==> n in s.entries
      ensures forall n :: n in s.entries ==>
                && d.Told()[n] == s.entries[n].told && d.properties[n].vector == s.entries[n].vector
                && d.properties[n].policy == s.entries[n].policy && d.properties[n].persist == s.entries[n].persist
      ensures s.honest <==> forall i :: 0 <= i <= |d.outbox.sent| ==>
                Honest(Row(AppliedAll(map[], d.outbox.sent[..i]), d.device))
    {
      assert d.outbox.sent[..|d.outbox.sent|] == d.outbox.sent;
      assert d.Told().Keys == d.properties.Keys + {};
      forall n ensures (n in d.properties && n != CONFIG_PERSISTED <==> n in s.entries)
        && (n in s.entries ==>
              && d.Told()[n] == s.entries[n].told && d.properties[n].vector == s.entries[n].vector
              && d.properties[n].policy == s.entries[n].policy && d.properties[n].persist == s.entries[n].persist)
      {
        assert Mirrored(s.entries, made, n);
      }
      HonestPrefixes();
    }

    /** The words of the list a client holds are the names the model states. */
    lemma ClientReadsList()
      requires Valid()
      ensures CONFIG_PERSISTED in d.Told() <==> s.stated.Some?
      ensures s.stated.Some? ==>
                PersistedList.Words(ListText(d.Told()[CONFIG_PERSISTED])) == PersistedList.Words(PersistedList.Join(s.stated.value))
    {
      ClientHolds();
      hide CONFIG_PERSISTED, PersistedList.Join, ListText;
      if CONFIG_PERSISTED in d.properties {
        d.ListIsTold();
      }
    }

    /** After any run: a client holds every property exactly or, if it is sent on change
        alone, with the state, the message and every value a client reads as they are,
        unless an update of it raised, having written a change, since it was last sent; no
        exclusive switch vector that was defined with at most one member on is ever shown
        with two; no prefix of the stream left a client with a list naming a property it
        did not hold, if and only if no call withdrew a property no longer persisted that
        the list still named; and the list names exactly the persisted properties unless
        one of them was replaced by one that is not, once the list was out. */
    lemma ClientAgrees(events: seq<Event>)
      requires Valid() && EventsPermitted(events, x) && s == AfterEvents(INITIAL, events, x)
      ensures d.Told() == Row(AppliedAll(map[], d.outbox.sent), d.device) && d.Told().Keys == d.properties.Keys
      ensures forall n :: n in d.properties && n != CONFIG_PERSISTED && CaughtUp(INITIAL, events, n, x) ==>
                if d.properties[n].policy == OnChange then LooksAlike(d.Told()[n], d.properties[n].vector, d.render)
                else d.Told()[n] == d.properties[n].vector
      ensures forall n :: n in d.properties && n in s.entries
                          && Exclusive(s.entries[n].defined) && AtMostOneOn(s.entries[n].defined.elements) ==>
                AtMostOneOn(d.Told()[n].elements) && AtMostOneOn(d.properties[n].vector.elements)
      ensures NoneMisleads(INITIAL, events, x) <==>
                forall i :: 0 <= i <= |d.outbox.sent| ==>
                  Honest(Row(AppliedAll(map[], d.outbox.sent[..i]), d.device))
      ensures NoneUnlisted(INITIAL, events, x) ==>
                && NoneMisleads(INITIAL, events, x)
                && (CONFIG_PERSISTED in d.properties ==>
                      forall n :: n in PersistedList.Words(ListText(d.Told()[CONFIG_PERSISTED])) <==>
                                  n != "" && n in d.properties && d.properties[n].persist)
    {
      ClientHolds();
      ClientReadsList();
      InitialInv(x);
      Unsaved();
      hide Valid, AfterEvents, Honest, Shows, CaughtUp, Inv, Sound, NoneUnlisted, NoneMisleads, CONFIG_PERSISTED, ListText, Exact,
           AtMostOneOn, Exclusive, LooksAlike;
      forall n | n in s.entries && CaughtUp(INITIAL, events, n, x)
        ensures if d.properties[n].policy == OnChange then LooksAlike(d.Told()[n], d.properties[n].vector, d.render)
                else d.Told()[n] == d.properties[n].vector
      {
        InStepUnlessLeftBehind(INITIAL, events, n, x);
        ShowsExactly(d.Told()[n], d.properties[n].vector, d.properties[n].policy, d.render);
      }
      forall n | n in s.entries && Exclusive(s.entries[n].defined) && AtMostOneOn(s.entries[n].defined.elements)
        ensures AtMostOneOn(d.Told()[n].elements) && AtMostOneOn(d.properties[n].vector.elements)
      {
        ExclusiveStays(events, n, x);
      }
      NothingListed();
      HonestExactly(INITIAL, events, x);
      if NoneUnlisted(INITIAL, events, x) {
        ListUnlessUnlisted(INITIAL, events, x);
        EventsKeepInv(INITIAL, events, x);
        if s.stated.Some? {
          ExactNames(s, x);
        }
      }
    }

    lemma Knows()
      requires Valid()
      ensures x == Context(d.device, d.render, d.show)
    {
    }

    lemma Unsaved()
      requires Valid()
      ensures CONFIG_PERSISTED in d.properties ==> !d.properties[CONFIG_PERSISTED].persist
    {
      ListUnsaved();
    }
  }

  /** A client is misled after a persisted property is defined again without `persist` and
      then withdrawn: its list names a property it does not hold. */
  method MisledClient(device: string, render: Render, show: real -> string, button: Vector, p: Vector, policy: Policy,
                      time: int) returns (session: Session)
    requires WellFormed(button) && button.device == "" && button.name == CONFIG_PROCESS
    requires WellFormed(p) && p.device == "" && Persistable(p.kind) && PersistedList.NoSpace(p.name)
    requires p.name != "" && p.name != CONFIG_PROCESS && p.name != CONFIG_PERSISTED
    ensures session.Valid() && session.s == AfterEvents(INITIAL, MisleadingRun(button, p, policy, time), session.x)
    ensures CONFIG_PERSISTED in session.d.Told() && p.name !in session.d.Told()
    ensures p.name in PersistedList.Words(ListText(session.d.Told()[CONFIG_PERSISTED])) && !Honest(session.d.Told())
  {
    hide Session.Valid, AfterEvents, Honest, WellFormed, PersistedList.NoSpace, Persistable, ListText;
    session := new Session(device, render, show);
    MisleadingRunEnds(button, p, policy, time, session.x);
    session.Run(MisleadingRun(button, p, policy, time));
    session.ClientHolds();
    session.ClientReadsList();
    PersistedList.WordsOfJoin([p.name]);
    Misled(session.d.Told(), p.name);
  }

  lemma Misled(row: map<string, Vector>, n: string)
    requires CONFIG_PERSISTED in row && n in PersistedList.Words(ListText(row[CONFIG_PERSISTED])) && n !in row
    ensures !Honest(row)
  {
  }

  /** A property defined before a setup that defines it again and then raises is gone,
      from the registry and from the client. */
  method DroppedByRollback(device: string, render: Render, show: real -> string, p: Vector, policy: Policy, time: int)
    returns (session: Session)
    requires WellFormed(p) && p.device == "" && p.name != CONFIG_PERSISTED
    ensures session.Valid() && session.s == AfterEvents(INITIAL, DroppingRun(p, policy, time), session.x)
    ensures p.name !in session.d.properties && p.name !in session.d.Told()
  {
    session := new Session(device, render, show);
    DroppingRunEnds(p, policy, time, session.x);
    session.Run(DroppingRun(p, policy, time));
    session.ClientHolds();
  }

  /** A withdrawn persisted property's last values are in a document saved any time later,
      unless it is loaded or defined as a persisted one in between. */
  method SaveAfterWithdrawal(session: Session, name: string, why: Option<string>, time: int, events: seq<Event>)
    returns (document: map<string, Saved>)
    requires session.Valid() && EventsPermitted(events, session.x) && LeftAlone(events, name)
    requires name in session.d.properties && name != CONFIG_PERSISTED && session.d.properties[name].persist
    modifies session, session.repr
    ensures session.Valid() && name in document
    ensures document[name] == old(ValuesOf(session.d.properties[name].vector.elements, session.d.show))
  {
    hide Session.Valid, AfterForgetting, AfterSaving, AfterEvents, LeftAlone, EventsPermitted, Honest, ValuesOf,
         CONFIG_PERSISTED;
    session.ClientHolds();
    session.Knows();
    WithdrawnIsSaved(session.s, name, events, session.x);
    session.Perform(Timed(Withdrawing(name, why), time));
    session.Run(events);
    document := session.Save();
  }

  lemma NothingListed()
    ensures Exact(INITIAL) && INITIAL.honest
  {
  }

  /** What a failed setup leaves but for the configuration. */
  lemma FailedSame(before: State, s: State, x: Context)
    ensures var next := AfterFailing(before, s, x);
            && (forall n :: n in next.entries <==> n in s.entries && Survived(before, s, n))
            && (forall n :: n in next.entries ==> next.entries[n] == s.entries[n].(told := s.entries[n].vector))
            && next.order == Those(before.order, next.entries.Keys) && !next.setupDone
            && next.stated == s.stated && next.honest == s.honest && next.made == s.made
  {
    hide Survived, ValuesIn, Those;
  }

  lemma SurvivorsHold(was: map<string, BoundProperty>, announced: map<string, BoundProperty>)
    ensures forall n :: n in Survivors(was, announced) <==> Survives(was, announced, n)
    ensures forall n :: n in Survivors(was, announced) ==> n in was && Survivors(was, announced)[n] == was[n]
  {
  }

  lemma FailedConfig(before: State, announced: map<string, BoundProperty>, was: map<string, BoundProperty>, s: State,
                     left: map<string, BoundProperty>, config: map<string, Saved>, x: Context)
    requires forall n :: n in was <==> n in s.entries
    requires forall n :: Survives(was, announced, n) <==> Survived(before, s, n)
    requires left == Survivors(was, announced) && CapturedSoFar(was, Savings(s, x), left, s.config, config)
    ensures config == AfterFailing(before, s, x).config
  {
    var values, next := Savings(s, x), AfterFailing(before, s, x);
    forall n ensures (n in config <==> n in next.config) && (n in config ==> config[n] == next.config[n]) {
      assert n in values <==> n in s.entries && s.entries[n].persist;
      assert n in left <==> n in announced && Survives(was, announced, n);
    }
    hide ValuesIn, Those;
  }

  lemma AnnouncedSame(s: State)
    ensures var next := AfterAnnouncing(s);
            && next.order == s.order && next.config == s.config && next.setupDone == s.setupDone && next.stated == s.stated
            && next.honest == s.honest && next.made == s.made
  {
  }

  lemma {:induction false} SameNames(order: seq<string>, properties: map<string, BoundProperty>, entries: map<string, Entry>)
    requires forall n :: n in order ==>
               (n in properties && properties[n].persist <==> n in entries && entries[n].persist)
    ensures Kept(order, properties) == KeptNames(order, entries)
  {
    if order != [] {
      SameNames(order[1..], properties, entries);
    }
  }
}
