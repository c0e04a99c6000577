/** A device's run as values: what any sequence of events leaves registered, told,
    configured and listed, as functions of the events, and what every run keeps. The
    methods of DriverRuns are proved to do exactly this. */
module Registry {
  import opened Wire
  import opened Merge
  import opened Property
  import opened Handle
  import opened Driver
  import PersistedList

  /** One call a driver makes. A handle is named by its number in the order they were
      made, so that one that has been replaced can still be withdrawn late. */
  datatype Call =
    | Defining(vector: Vector, policy: Policy, persist: bool)
    | Updating(name: string, edit: Edit)
    | Withdrawing(name: string, why: Option<string>)
    | WithdrawingHandle(which: nat, why: Option<string>)
    | Saving
    | Loading(document: map<string, Saved>, order: seq<string>)

  datatype Timed = Timed(call: Call, time: int)

  /** What reaches the device: a call, or a `getProperties`, the first of which runs the
      driver's setup; a later one has everything announced again. */
  datatype Event = Plain(timed: Timed) | Asked(setup: seq<Timed>, fails: bool, time: int)

  /** A registered property: what it was defined as, what it holds, what a client that
      folded the stream holds of it, and the number of its handle. */
  datatype Entry = Entry(defined: Vector, vector: Vector, told: Vector, policy: Policy, persist: bool, which: nat)

  /** `made` names every handle's property; `stated` is the published list, if it is
      published; `honest` that it never named a property a client did not hold. */
  datatype State = State(
    entries: map<string, Entry>, order: seq<string>, config: map<string, Saved>, made: seq<string>,
    setupDone: bool, stated: Option<seq<string>>, honest: bool)

  datatype Context = Context(device: string, render: Render, show: real -> string)

  const INITIAL := State(map[], [], map[], [], false, None, true)

  // ------------------------------------------------------------------------ //
  // The steps                                                                 //
  // ------------------------------------------------------------------------ //

  /** The names in the order given that are registered as persisted. */
  function KeptNames(order: seq<string>, entries: map<string, Entry>): (r: seq<string>)
    ensures forall n :: n in r <==> n in order && n in entries && entries[n].persist
  {
    if order == [] then []
    else
      var rest := KeptNames(order[1..], entries);
      assert order == [order[0]] + order[1..];
      if order[0] in entries && entries[order[0]].persist then [order[0]] + rest else rest
  }

  function Listed(s: State): seq<string> {
    KeptNames(s.order, s.entries)
  }

  function Restated(s: State): State {
    s.(stated := if s.stated.Some? then Some(Listed(s)) else None)
  }

  /** The list names only registered properties. */
  predicate Truthful(s: State) {
    s.stated.Some? ==> forall n :: n in s.stated.value && n != "" ==> n in s.entries
  }

  function AfterDefining(s: State, v0: Vector, policy: Policy, persist: bool, x: Context): State {
    if persist && (!Persistable(v0.kind) || !PersistedList.NoSpace(v0.name)) then s
    else
      var v := v0.(device := x.device);
      var held := if persist && v.name in s.config then Restored(v, s.config[v.name]) else v;
      var next := s.(entries := s.entries[v.name := Entry(v, held, held, policy, persist, |s.made|)],
                     order := if v.name in s.entries then s.order else s.order + [v.name],
                     made := s.made + [v.name]);
      if persist then Restated(next) else next
  }

  function AfterEdit(e: Entry, edit: Edit, time: int, x: Context): Entry {
    var (vector, told) := Pushed(e.policy, e.vector, e.told, edit, time, x.render);
    e.(vector := vector, told := told)
  }

  function AfterUpdating(s: State, n: string, edit: Edit, time: int, x: Context): State {
    if n in s.entries then s.(entries := s.entries[n := AfterEdit(s.entries[n], edit, time, x)]) else s
  }

  function ValuesIn(e: Entry, x: Context): Saved {
    ValuesOf(e.vector.elements, x.show)
  }

  /** A registered property goes: its values stay if it is persisted, and the list is
      stated without it; the list itself just goes. */
  function AfterForgetting(s: State, n: string, x: Context): State {
    if n == CONFIG_PERSISTED then
      if s.stated.Some? then s.(stated := None, order := Without(s.order, n)) else s
    else if n !in s.entries then s
    else
      var e := s.entries[n];
      var next := s.(entries := s.entries - {n}, order := Without(s.order, n),
                     config := if e.persist then s.config[n := ValuesIn(e, x)] else s.config);
      var listed := if e.persist then Restated(next) else next;
      listed.(honest := listed.honest && Truthful(listed))
  }

  /** The property a handle owns, if it owns one. */
  function OwnedBy(s: State, which: nat): Option<string> {
    if which < |s.made| && s.made[which] in s.entries && s.entries[s.made[which]].which == which
    then Some(s.made[which]) else None
  }

  function AfterWithdrawing(s: State, which: nat, x: Context): State {
    match OwnedBy(s, which)
    case Some(n) => AfterForgetting(s, n, x)
    case None => s
  }

  /** The values every persisted property holds. */
  function Savings(s: State, x: Context): map<string, Saved> {
    map n | n in s.entries && s.entries[n].persist :: ValuesIn(s.entries[n], x)
  }

  function AfterSaving(s: State, x: Context): State {
    s.(config := s.config + Savings(s, x))
  }

  function AfterLoading(s: State, document: map<string, Saved>, time: int, x: Context): State {
    s.(config := s.config + document,
       entries := map n | n in s.entries ::
         if n in document && s.entries[n].persist then AfterEdit(s.entries[n], Restoring(document[n]), time, x)
         else s.entries[n])
  }

  function After(s: State, timed: Timed, x: Context): State {
    match timed.call
    case Defining(v, policy, persist) => AfterDefining(s, v, policy, persist, x)
    case Updating(n, edit) => AfterUpdating(s, n, edit, timed.time, x)
    case Withdrawing(n, _) => AfterForgetting(s, n, x)
    case WithdrawingHandle(which, _) => AfterWithdrawing(s, which, x)
    case Saving => AfterSaving(s, x)
    case Loading(document, _) => AfterLoading(s, document, timed.time, x)
  }

  function AfterAll(s: State, calls: seq<Timed>, x: Context): State {
    if calls == [] then s else After(AfterAll(s, calls[..|calls| - 1], x), calls[|calls| - 1], x)
  }

  function AfterAnnouncing(s: State): State {
    s.(entries := map n | n in s.entries :: s.entries[n].(told := s.entries[n].vector))
  }

  /** The list is published once the setup has settled what it names. */
  function AfterPublishing(s: State): State {
    if CONFIG_PROCESS !in s.entries || s.stated.Some? then s
    else s.(stated := Some(Listed(s)), order := s.order + [CONFIG_PERSISTED])
  }

  /** The very handle registered before is registered now. */
  predicate Survived(before: State, s: State, n: string) {
    n in before.entries && n in s.entries && before.entries[n].which == s.entries[n].which
  }

  /** Back to what was announced before a setup that raised. */
  function AfterFailing(before: State, s: State, x: Context): State {
    var left := map n | n in s.entries && Survived(before, s, n) :: s.entries[n].(told := s.entries[n].vector);
    s.(entries := left, order := Those(before.order, left.Keys), setupDone := false,
       config := s.config + map n | n in s.entries && !Survived(before, s, n) && s.entries[n].persist
                              :: ValuesIn(s.entries[n], x))
  }

  function AfterAsking(s: State, setup: seq<Timed>, fails: bool, x: Context): State {
    if s.setupDone then AfterAnnouncing(s)
    else
      var begun := s.(setupDone := true);
      var built := AfterAll(begun, setup, x);
      if fails then AfterFailing(begun, built, x) else AfterPublishing(built)
  }

  function AfterEvent(s: State, e: Event, x: Context): State {
    match e
    case Plain(timed) => After(s, timed, x)
    case Asked(setup, fails, _) => AfterAsking(s, setup, fails, x)
  }

  function AfterEvents(s: State, events: seq<Event>, x: Context): State {
    if events == [] then s else AfterEvent(AfterEvents(s, events[..|events| - 1], x), events[|events| - 1], x)
  }

  // ------------------------------------------------------------------------ //
  // What a driver may do                                                      //
  // ------------------------------------------------------------------------ //

  /** The vectors a driver defines are well formed and its own, and the list of saved
      properties is neither defined nor updated by it. */
  ghost predicate Permitted(call: Call, x: Context) {
    match call
    case Defining(v, _, _) => WellFormed(v) && (v.device == "" || v.device == x.device) && v.name != CONFIG_PERSISTED
    case Updating(name, _) => name != CONFIG_PERSISTED
    case Loading(document, order) => Orders(order, document)
    case _ => true
  }

  ghost predicate AllPermitted(calls: seq<Timed>, x: Context) {
    forall i :: 0 <= i < |calls| ==> Permitted(calls[i].call, x)
  }

  ghost predicate EventPermitted(e: Event, x: Context) {
    match e case Plain(timed) => Permitted(timed.call, x) case Asked(setup, _, _) => AllPermitted(setup, x)
  }

  ghost predicate EventsPermitted(events: seq<Event>, x: Context) {
    forall i :: 0 <= i < |events| ==> EventPermitted(events[i], x)
  }

  // ------------------------------------------------------------------------ //
  // What every run keeps                                                      //
  // ------------------------------------------------------------------------ //

  /** What is held and what was told are later states of what was defined, told the
      earlier one, and an exclusive vector defined with at most one member on has at most
      one on, and was never told otherwise. */
  predicate Sound(e: Entry, n: string, x: Context) {
    && e.defined.name == n && e.defined.device == x.device && WellFormed(e.defined) && WellFormed(e.vector)
    && Precedes(e.defined, e.told) && Precedes(e.told, e.vector) && WellFormed(e.told)
    && (e.persist ==> PersistedList.NoSpace(n) && Persistable(e.defined.kind))
    && (Exclusive(e.defined) && AtMostOneOn(e.defined.elements) ==>
          AtMostOneOn(e.vector.elements) && AtMostOneOn(e.told.elements))
  }

  predicate EntryInv(s: State, n: string, x: Context) {
    n in s.entries ==>
      && Sound(s.entries[n], n, x) && n in s.order && n != CONFIG_PERSISTED
      && s.entries[n].which < |s.made| && s.made[s.entries[n].which] == n
  }

  ghost predicate Inv(s: State, x: Context) {
    && (forall n :: EntryInv(s, n, x))
    && (s.stated.Some? ==>
          s.setupDone && forall n :: n in s.stated.value ==> PersistedList.NoSpace(n) && n != CONFIG_PERSISTED)
    && (s.honest ==> Truthful(s))
    && CONFIG_PERSISTED !in s.made
  }

  lemma {:induction false} AssignAllFaultStays(v: Vector, later: Vector, values: seq<(string, Value)>)
    requires WellFormed(v) && WellFormed(later) && Precedes(v, later)
    ensures AssignAll(later, values).1 == AssignAll(v, values).1
  {
    hide WellFormed, Precedes, AssignAll, FaultOf;
    forall i | 0 <= i < |values| ensures FaultOf(later, values[i].0, values[i].1) == FaultOf(v, values[i].0, values[i].1) {
      FaultStays(v, later, values[i].0, values[i].1);
    }
    RaisesExactly(v, values);
    RaisesExactly(later, values);
    if AssignAll(v, values).1.Some? {
      var i :| 0 <= i < |values| && FaultOf(v, values[i].0, values[i].1) == AssignAll(v, values).1
               && forall j :: 0 <= j < i ==> FaultOf(v, values[j].0, values[j].1).None?;
      assert FaultOf(later, values[i].0, values[i].1).Some?;
      var k :| 0 <= k < |values| && FaultOf(later, values[k].0, values[k].1) == AssignAll(later, values).1
               && forall j :: 0 <= j < k ==> FaultOf(later, values[j].0, values[j].1).None?;
      assert !(i < k) && !(k < i);
    }
  }

  lemma SameNamesAs(v: Vector, later: Vector)
    requires Precedes(v, later)
    ensures v.kind == later.kind && |v.elements| == |later.elements|
    ensures forall i :: 0 <= i < |v.elements| ==> v.elements[i].name == later.elements[i].name
  {
    assert forall i :: 0 <= i < |v.elements| ==> ElementPrecedes(v.elements[i], later.elements[i]);
  }

  lemma GivesAlike(xs: seq<Element>, ys: seq<Element>, name: string, value: Value, others: Value)
    requires |xs| == |ys| && forall i :: 0 <= i < |xs| ==> xs[i].name == ys[i].name
    ensures ForAll(xs, value) == ForAll(ys, value) && ForOne(xs, name, value, others) == ForOne(ys, name, value, others)
  {
  }

  /** Whether an update raises, and how, is a matter of the definition alone. */
  lemma EditFaultStays(v: Vector, later: Vector, edit: Edit)
    requires WellFormed(v) && WellFormed(later) && Precedes(v, later)
    ensures Edited(later, edit).1 == Edited(v, edit).1
  {
    SameNamesAs(v, later);
    hide WellFormed, Precedes, AssignAll, Noted, Restored, ForAll, ForOne, IndexOf, Unselected;
    match edit
    case Setting(values, _, _, _) => AssignAllFaultStays(v, later, values);
    case SettingAll(value, _, _, _) =>
      GivesAlike(v.elements, later.elements, "", value, value);
      AssignAllFaultStays(v, later, ForAll(v.elements, value));
    case Selecting(name, value, others, _, _, _) =>
      IndexOfSame(v.elements, later.elements, name);
      var rest := if others.Some? then others else Unselected(v.kind);
      if rest.Some? {
        GivesAlike(v.elements, later.elements, name, value, rest.value);
        AssignAllFaultStays(v, later, ForOne(v.elements, name, value, rest.value));
      }
    case Restoring(_) =>
  }

  /** Any edit keeps an exclusive vector exclusive. */
  lemma EditStaysExclusive(v: Vector, edit: Edit)
    requires WellFormed(v) && Exclusive(v) && AtMostOneOn(v.elements)
    ensures AtMostOneOn(Edited(v, edit).0.elements)
  {
    hide WellFormed, Exclusive, AtMostOneOn, AssignAll, Restored, ForAll, ForOne, Unselected, IndexOf;
    match edit
    case Setting(values, _, _, _) => AssignAllStaysExclusive(v, values);
    case SettingAll(value, _, _, _) => AssignAllStaysExclusive(v, ForAll(v.elements, value));
    case Selecting(name, value, others, _, _, _) =>
      var rest := if others.Some? then others else Unselected(v.kind);
      if rest.Some? {
        AssignAllStaysExclusive(v, ForOne(v.elements, name, value, rest.value));
      }
    case Restoring(values) => RestoredStaysExclusive(v, values);
  }

  lemma StampKeeps(v: Vector, w: Vector, time: int)
    requires WellFormed(w) && Precedes(v, w)
    ensures WellFormed(Stamped(w, time)) && Precedes(v, Stamped(w, time))
  {
  }

  lemma EditKeepsSound(e: Entry, n: string, edit: Edit, time: int, x: Context)
    requires Sound(e, n, x)
    ensures Sound(AfterEdit(e, edit, time, x), n, x)
  {
    var w := Edited(e.vector, edit).0;
    EditedKeeps(e.vector, edit);
    PrecedesTransitive(e.told, e.vector, w);
    StampKeeps(e.told, w, time);
    PrecedesTransitive(e.defined, e.told, w);
    StampKeeps(e.defined, w, time);
    PrecedesReflexive(Stamped(w, time));
    if Exclusive(e.defined) && AtMostOneOn(e.defined.elements) {
      EditStaysExclusive(e.vector, edit);
    }
    hide WellFormed, Precedes, AtMostOneOn, Edited, Emits;
  }

  lemma DefinitionIsSound(v: Vector, saved: Saved, restores: bool, policy: Policy, persist: bool, which: nat, x: Context)
    requires WellFormed(v) && v.device == x.device
    requires persist ==> PersistedList.NoSpace(v.name) && Persistable(v.kind)
    ensures var held := if restores then Restored(v, saved) else v;
            Sound(Entry(v, held, held, policy, persist, which), v.name, x)
  {
    RestoredKeeps(v, saved);
    PrecedesReflexive(v);
    PrecedesReflexive(Restored(v, saved));
    if Exclusive(v) && AtMostOneOn(v.elements) {
      RestoredStaysExclusive(v, saved);
    }
    hide WellFormed, Precedes, AtMostOneOn, Restored;
  }

  lemma DefiningRefused(s: State, v0: Vector, policy: Policy, x: Context)
    requires !Persistable(v0.kind) || !PersistedList.NoSpace(v0.name)
    ensures AfterDefining(s, v0, policy, true, x) == s
  {
  }

  lemma DefiningKeepsInv(s: State, v0: Vector, policy: Policy, persist: bool, x: Context)
    requires Inv(s, x) && Permitted(Defining(v0, policy, persist), x)
    ensures Inv(AfterDefining(s, v0, policy, persist, x), x)
  {
    if !(persist && (!Persistable(v0.kind) || !PersistedList.NoSpace(v0.name))) {
      var v := v0.(device := x.device);
      var restores := persist && v.name in s.config;
      assert WellFormed(v);
      DefinitionIsSound(v, if restores then s.config[v.name] else [], restores, policy, persist, |s.made|, x);
      var next := AfterDefining(s, v0, policy, persist, x);
      hide WellFormed, Sound, Restored, PersistedList.NoSpace, Persistable, CONFIG_PERSISTED;
      forall n ensures EntryInv(next, n, x) {
        assert EntryInv(s, n, x);
      }
      ListedAreClean(next, x);
    }
  }

  /** The names a restated list holds have no white space and are registered. */
  lemma ListedAreClean(s: State, x: Context)
    requires forall n :: EntryInv(s, n, x)
    ensures forall n :: n in Listed(s) ==> PersistedList.NoSpace(n) && n != CONFIG_PERSISTED && n in s.entries
  {
    forall n | n in Listed(s) ensures PersistedList.NoSpace(n) && n != CONFIG_PERSISTED && n in s.entries {
      assert EntryInv(s, n, x);
    }
  }

  lemma UpdatingKeepsInv(s: State, n: string, edit: Edit, time: int, x: Context)
    requires Inv(s, x)
    ensures Inv(AfterUpdating(s, n, edit, time, x), x)
  {
    if n in s.entries {
      assert EntryInv(s, n, x);
      EditKeepsSound(s.entries[n], n, edit, time, x);
      hide Sound, AfterEdit, PersistedList.NoSpace, CONFIG_PERSISTED;
      var next := AfterUpdating(s, n, edit, time, x);
      AfterEditSame(s.entries[n], edit, time, x);
      forall m ensures EntryInv(next, m, x) {
        assert EntryInv(s, m, x);
      }
    }
  }

  /** An edit leaves the rest of an entry alone. */
  lemma AfterEditSame(e: Entry, edit: Edit, time: int, x: Context)
    ensures var after := AfterEdit(e, edit, time, x);
            after.which == e.which && after.persist == e.persist && after.policy == e.policy && after.defined == e.defined
  {
  }

  lemma ForgettingKeepsInv(s: State, n: string, x: Context)
    requires Inv(s, x)
    ensures Inv(AfterForgetting(s, n, x), x)
  {
    hide Sound, PersistedList.NoSpace, CONFIG_PERSISTED, ValuesOf;
    var next := AfterForgetting(s, n, x);
    forall m ensures EntryInv(next, m, x) {
      assert EntryInv(s, m, x);
    }
    ListedAreClean(next, x);
  }

  /** What goes misleads nobody new exactly when the list is truthful without it. */
  lemma ForgottenHonestly(s: State, n: string, x: Context)
    requires n in s.entries || n == CONFIG_PERSISTED
    requires CONFIG_PERSISTED !in s.entries && (s.stated.None? ==> n != CONFIG_PERSISTED)
    ensures AfterForgetting(s, n, x).honest <==> s.honest && Truthful(AfterForgetting(s, n, x))
  {
    hide KeptNames, ValuesIn, Without;
  }

  lemma LoadingKeepsInv(s: State, document: map<string, Saved>, time: int, x: Context)
    requires Inv(s, x)
    ensures Inv(AfterLoading(s, document, time, x), x)
  {
    hide Sound, AfterEdit, PersistedList.NoSpace, CONFIG_PERSISTED;
    var next := AfterLoading(s, document, time, x);
    forall n ensures EntryInv(next, n, x) {
      assert EntryInv(s, n, x);
      if n in s.entries && n in document {
        EditKeepsSound(s.entries[n], n, Restoring(document[n]), time, x);
        AfterEditSame(s.entries[n], Restoring(document[n]), time, x);
      }
    }
  }

  lemma SavingKeepsInv(s: State, x: Context)
    requires Inv(s, x)
    ensures Inv(AfterSaving(s, x), x)
  {
    forall n ensures EntryInv(AfterSaving(s, x), n, x) {
      assert EntryInv(s, n, x);
    }
  }

  lemma CallKeepsInv(s: State, timed: Timed, x: Context)
    requires Inv(s, x) && Permitted(timed.call, x)
    ensures Inv(After(s, timed, x), x)
  {
    match timed.call
    case Defining(v, policy, persist) => DefiningKeepsInv(s, v, policy, persist, x);
    case Updating(n, edit) => UpdatingKeepsInv(s, n, edit, timed.time, x);
    case Withdrawing(n, _) => ForgettingKeepsInv(s, n, x);
    case WithdrawingHandle(which, _) =>
      if OwnedBy(s, which).Some? {
        ForgettingKeepsInv(s, OwnedBy(s, which).value, x);
      }
    case Saving => SavingKeepsInv(s, x);
    case Loading(document, _) => LoadingKeepsInv(s, document, timed.time, x);
  }

  /** A list that is not published is published by no call. */
  lemma CallPublishesNothing(s: State, timed: Timed, x: Context)
    ensures s.stated.None? ==> After(s, timed, x).stated.None? && After(s, timed, x).honest == s.honest
    ensures After(s, timed, x).setupDone == s.setupDone
  {
    hide AfterEdit, KeptNames, ValuesOf, Restored, Without, ValuesIn, Savings;
  }

  lemma {:induction false} CallsKeepInv(s: State, calls: seq<Timed>, x: Context)
    requires Inv(s, x) && AllPermitted(calls, x)
    ensures Inv(AfterAll(s, calls, x), x)
    ensures s.stated.None? ==> AfterAll(s, calls, x).stated.None? && AfterAll(s, calls, x).honest == s.honest
    ensures AfterAll(s, calls, x).setupDone == s.setupDone
  {
    hide Inv, Permitted, After;
    if calls != [] {
      CallsKeepInv(s, calls[..|calls| - 1], x);
      CallKeepsInv(AfterAll(s, calls[..|calls| - 1], x), calls[|calls| - 1], x);
      CallPublishesNothing(AfterAll(s, calls[..|calls| - 1], x), calls[|calls| - 1], x);
    }
  }

  /** Telling a client what a property holds brings it into step. */
  lemma ToldIsSound(e: Entry, n: string, x: Context)
    requires Sound(e, n, x)
    ensures Sound(e.(told := e.vector), n, x)
  {
    PrecedesTransitive(e.defined, e.told, e.vector);
    PrecedesReflexive(e.vector);
    hide WellFormed, Precedes, AtMostOneOn;
  }

  lemma AnnouncingKeepsInv(s: State, x: Context)
    requires Inv(s, x)
    ensures Inv(AfterAnnouncing(s), x)
  {
    hide Sound, PersistedList.NoSpace, CONFIG_PERSISTED;
    forall n ensures EntryInv(AfterAnnouncing(s), n, x) {
      assert EntryInv(s, n, x);
      if n in s.entries {
        ToldIsSound(s.entries[n], n, x);
      }
    }
  }

  lemma PublishingKeepsInv(s: State, x: Context)
    requires Inv(s, x) && s.setupDone
    ensures Inv(AfterPublishing(s), x)
  {
    hide Sound, PersistedList.NoSpace, CONFIG_PERSISTED;
    forall n ensures EntryInv(AfterPublishing(s), n, x) {
      assert EntryInv(s, n, x);
    }
    ListedAreClean(s, x);
  }

  lemma FailingKeepsInv(before: State, s: State, x: Context)
    requires Inv(before, x) && Inv(s, x) && s.stated.None?
    ensures Inv(AfterFailing(before, s, x), x)
  {
    hide Sound, PersistedList.NoSpace, CONFIG_PERSISTED, ValuesOf;
    forall n ensures EntryInv(AfterFailing(before, s, x), n, x) {
      assert EntryInv(before, n, x) && EntryInv(s, n, x);
      if n in s.entries {
        ToldIsSound(s.entries[n], n, x);
      }
    }
  }

  lemma BegunKeepsInv(s: State, x: Context)
    requires Inv(s, x)
    ensures Inv(s.(setupDone := true), x)
  {
    hide Sound, CONFIG_PERSISTED, PersistedList.NoSpace;
    forall n ensures EntryInv(s.(setupDone := true), n, x) {
      assert EntryInv(s, n, x);
    }
  }

  lemma EventKeepsInv(s: State, e: Event, x: Context)
    requires Inv(s, x) && EventPermitted(e, x)
    ensures Inv(AfterEvent(s, e, x), x)
  {
    match e
    case Plain(timed) => CallKeepsInv(s, timed, x);
    case Asked(setup, fails, _) =>
      if s.setupDone {
        AnnouncingKeepsInv(s, x);
      } else {
        var begun := s.(setupDone := true);
        BegunKeepsInv(s, x);
        CallsKeepInv(begun, setup, x);
        if fails {
          FailingKeepsInv(begun, AfterAll(begun, setup, x), x);
        } else {
          PublishingKeepsInv(AfterAll(begun, setup, x), x);
        }
      }
  }

  lemma {:induction false} EventsKeepInv(s: State, events: seq<Event>, x: Context)
    requires Inv(s, x) && EventsPermitted(events, x)
    ensures Inv(AfterEvents(s, events, x), x)
  {
    hide Inv, EventPermitted, AfterEvent;
    if events != [] {
      EventsKeepInv(s, events[..|events| - 1], x);
      EventKeepsInv(AfterEvents(s, events[..|events| - 1], x), events[|events| - 1], x);
    }
  }

  lemma InitialInv(x: Context)
    ensures Inv(INITIAL, x)
  {
  }
}
